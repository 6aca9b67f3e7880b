/**
 The write barrier and the exported snapshot of a backup
 (internal/backup/barrier.go and Engine.Create in internal/backup/engine.go).

 Writers hold one advisory lock in shared mode for a whole request; a backup holds it
 exclusively from before it pins the database view until the file tree has been
 captured.  Every statement, file operation and lock operation is one step, and the steps
 of any number of writers, backups and cleanups interleave.

 Files are modelled down to the inode: the storage provider publishes an object by
 renaming or linking a finished temporary file, so an inode is never rewritten, and the
 snapshot directory of a backup holds hard links to inodes, or copies of them.  A cleanup
 takes snapshot directories apart one file at a time.
 */
module WriteBarrier {

  import opened Storage
  import opened Wrappers

  type Key = string
  type Inode = nat
  type WriterId = nat
  type BackupId = nat

  datatype Database = Database(rows: map<string, string>, version: nat)

  /**
   What one finished run of Create wrote. `at` and `refused` are history: the state of the run it
   pinned its view in, and the files that could be neither linked nor copied.
   */
  datatype Finished = Finished(
    at: nat,
    dump: Database,             // pg_dump --snapshot
    version: nat,               // migration version read inside the snapshot
    objects: map<Key, Bytes>,   // what was hashed into the manifest
    files: map<Key, Bytes>,     // the bytes streamed after the barrier was released
    skipped: set<Key>,
    refused: set<Key>,
    degraded: bool)             // the manifest does not claim a full recovery point

  /**
   The database view a backup pinned and what its snapshot directory holds; `present` is whether the
   directory is there at all.
   */
  datatype Capture = Capture(at: nat, view: Database, snap: map<Key, Inode>, present: bool, skipped: set<Key>,
                             refused: set<Key>)

  datatype Backup =
    | Locked
    | Pinned(at: nat, view: Database)
    | Walking(capture: Capture, todo: set<Key>)
    | Hashed(capture: Capture, objects: map<Key, Bytes>)
    | MetaRead(capture: Capture, objects: map<Key, Bytes>, version: nat)
    | Released(capture: Capture, objects: map<Key, Bytes>, version: nat)

  datatype State = State(
    db: Database,
    files: map<Key, Inode>,
    inodes: map<Inode, Bytes>,
    writers: set<WriterId>,     // shared holders, that is, requests in flight
    holder: Option<BackupId>,   // the backup whose session holds the lock exclusively
    backups: map<BackupId, Backup>,
    archives: seq<Finished>)

  /** Linking one file: a hard link, a byte copy into a fresh inode, or neither. */
  datatype Linking = Linked | Copied(inode: Inode) | Refused

  datatype Phase = Pin(now: nat) | List | Link(key: Key, how: Linking) | Hash | ReadMeta | Release

  /** Cleanups are run by a backup before it makes its own directory, and by a restore, which takes no lock. */
  datatype Step =
    | AcquireShared(w: WriterId)
    | WriteDatabase(w: WriterId, db: Database)
    | PutFile(w: WriterId, key: Key, inode: Inode, content: Bytes)
    | DeleteFile(w: WriterId, key: Key)
    | ReleaseShared(w: WriterId)
    | LockExclusive(b: BackupId)
    | Advance(b: BackupId, phase: Phase)
    | WriteArchive(b: BackupId)
    | Abandon(b: BackupId)
    | BarrierSessionDies(b: BackupId)
    | Unlink(cleaner: Option<BackupId>, b: BackupId, key: Key)
    | RemoveDir(cleaner: Option<BackupId>, b: BackupId)

  /** The contents behind a directory of links. */
  function Contents(links: map<Key, Inode>, inodes: map<Inode, Bytes>): map<Key, Bytes> {
    map k | k in links && links[k] in inodes :: inodes[links[k]]
  }

  /** The file tree an installation shows at one instant. */
  function Tree(s: State): map<Key, Bytes> {
    Contents(s.files, s.inodes)
  }

  predicate Grounded(s: State) {
    forall k :: k in s.files ==> s.files[k] in s.inodes
  }

  ghost predicate Init(s: State) {
    s.writers == {} && s.holder.None? && s.backups == map[] && s.archives == [] && Grounded(s)
  }

  // ----- steps

  predicate Enabled(s: State, b: Backup, phase: Phase) {
    match phase
    case Pin(_) => b.Locked?
    case List => b.Pinned?
    case Link(key, how) => b.Walking? && key in b.todo && (how.Copied? ==> how.inode !in s.inodes)
    case Hash => b.Walking? && b.todo == {} && b.capture.present
    case ReadMeta => b.Hashed?
    case Release => b.MetaRead?
  }

  /** A file that vanished since the listing, or was refused, is recorded as skipped; its folder is created first. */
  function Captured(s: State, c: Capture, key: Key, how: Linking): Capture {
    var c := c.(present := true);
    if key !in s.files then c.(skipped := c.skipped + {key})
    else match how
      case Linked => c.(snap := c.snap[key := s.files[key]])
      case Copied(inode) => c.(snap := c.snap[key := inode])
      case Refused => c.(skipped := c.skipped + {key}, refused := c.refused + {key})
  }

  function After(s: State, b: Backup, phase: Phase): Backup
    requires Enabled(s, b, phase)
  {
    match phase
    case Pin(now) => Pinned(now, s.db)
    case List => Walking(Capture(b.at, b.view, map[], true, {}, {}), s.files.Keys)
    case Link(key, how) => Walking(Captured(s, b.capture, key, how), b.todo - {key})
    case Hash => Hashed(b.capture, Contents(b.capture.snap, s.inodes))
    case ReadMeta => MetaRead(b.capture, b.objects, b.capture.view.version)
    case Release => Released(b.capture, b.objects, b.version)
  }

  predicate HasDir(b: Backup) {
    !b.Locked? && !b.Pinned?
  }

  /** cleanupInternalDirs runs ahead of the cleaner's own walk. */
  predicate CleansUp(s: State, cleaner: Option<BackupId>) {
    cleaner.Some? ==> cleaner.value in s.backups && s.backups[cleaner.value].Pinned?
  }

  /** A backup whose snapshot directory holds these links, or is gone. */
  function WithSnap(b: Backup, snap: map<Key, Inode>, present: bool): Backup
    requires HasDir(b)
  {
    b.(capture := b.capture.(snap := snap, present := present))
  }

  /** A copy adds an inode with the bytes of the file. */
  function InodesAfter(s: State, phase: Phase): map<Inode, Bytes> {
    if phase.Link? && phase.how.Copied? && phase.key in s.files && s.files[phase.key] in s.inodes
    then s.inodes[phase.how.inode := s.inodes[s.files[phase.key]]] else s.inodes
  }

  function Unlocked(holder: Option<BackupId>, b: BackupId): Option<BackupId> {
    if holder == Some(b) then None else holder
  }

  /** What Create has written once it is through. */
  function Result(s: State, b: Backup): Finished
    requires b.Released?
  {
    var c := b.capture;
    Finished(c.at, c.view, b.version, b.objects, Contents(c.snap, s.inodes), c.skipped, c.refused, c.skipped != {})
  }

  /** One step, by whoever takes it. */
  predicate Next(s: State, step: Step, s': State) {
    match step
    case AcquireShared(w) =>
      s.holder.None? && w !in s.writers && s' == s.(writers := s.writers + {w})
    case WriteDatabase(w, db) =>
      w in s.writers && s' == s.(db := db)
    case PutFile(w, key, inode, content) =>
      // a finished temporary file, a fresh inode, is renamed or linked onto the key
      && w in s.writers && inode !in s.inodes
      && s' == s.(files := s.files[key := inode], inodes := s.inodes[inode := content])
    case DeleteFile(w, key) =>
      w in s.writers && s' == s.(files := s.files - {key})
    case ReleaseShared(w) =>
      w in s.writers && s' == s.(writers := s.writers - {w})
    case LockExclusive(b) =>
      && b !in s.backups && s.writers == {} && s.holder.None?
      && s' == s.(holder := Some(b), backups := s.backups[b := Locked])
    case Advance(b, phase) =>
      && b in s.backups && Enabled(s, s.backups[b], phase)
      && s' == s.(backups := s.backups[b := After(s, s.backups[b], phase)], inodes := InodesAfter(s, phase),
                  holder := if phase.Release? then Unlocked(s.holder, b) else s.holder)
    case WriteArchive(b) =>
      // every listed object is opened again
      && b in s.backups && s.backups[b].Released? && s.backups[b].objects.Keys <= s.backups[b].capture.snap.Keys
      && s' == s.(backups := s.backups - {b}, archives := s.archives + [Result(s, s.backups[b])])
    case Abandon(b) =>
      // any error on the way: Close drops the lock and the snapshot
      b in s.backups && s' == s.(backups := s.backups - {b}, holder := Unlocked(s.holder, b))
    case BarrierSessionDies(b) =>
      // the server frees the lock when its holder's connection dies; Create is not told
      s.holder == Some(b) && s' == s.(holder := None)
    case Unlink(cleaner, b, key) =>
      // RemoveAll, one file at a time
      && CleansUp(s, cleaner) && b in s.backups && HasDir(s.backups[b]) && key in s.backups[b].capture.snap
      && s' == s.(backups := s.backups[b := WithSnap(s.backups[b], s.backups[b].capture.snap - {key},
                                                     s.backups[b].capture.present)])
    case RemoveDir(cleaner, b) =>
      // and the directory once it is empty
      && CleansUp(s, cleaner) && b in s.backups && HasDir(s.backups[b]) && s.backups[b].capture.snap == map[]
      && s' == s.(backups := s.backups[b := WithSnap(s.backups[b], map[], false)])
  }

  // ----- runs

  /** From taking the barrier until the last file is linked. */
  predicate Exposed(b: Backup) {
    b.Locked? || b.Pinned? || (b.Walking? && b.todo != {})
  }

  /** No request begins while a backup is exposed, and nobody takes a file out of a snapshot that is not hashed yet. */
  predicate Guarded(s: State, step: Step) {
    && (step.AcquireShared? ==> forall b :: b in s.backups ==> !Exposed(s.backups[b]))
    && (step.Unlink? && step.b in s.backups ==> !s.backups[step.b].Walking?)
  }

  /** A view is pinned in the state it is pinned in. */
  predicate Dated(step: Step, now: nat) {
    step.Advance? && step.phase.Pin? ==> step.phase.now == now
  }

  ghost predicate Steps(s: State, s': State, now: nat) {
    exists step :: Guarded(s, step) && Dated(step, now) && Next(s, step, s')
  }

  /** Some guarded step leads to the i-th state. */
  ghost predicate StepTo(run: seq<State>, i: nat)
    requires 0 < i < |run|
  {
    Steps(run[i - 1], run[i], i - 1)
  }

  /** The longer sequence goes on with guarded steps. */
  ghost predicate Follows(run: seq<State>, longer: seq<State>)
    ensures Follows(run, longer) ==> 0 < |run| <= |longer|
  {
    0 < |run| && run <= longer && forall i :: |run| <= i < |longer| ==> StepTo(longer, i)
  }

  /** A run in which every step is guarded: sessions may die, clean-ups may come and requests may begin otherwise. */
  ghost predicate Run(run: seq<State>) {
    |run| > 0 && Init(run[0]) && Follows(run[..1], run)
  }

  lemma FollowOn(a: seq<State>, b: seq<State>, c: seq<State>)
    requires Follows(a, b) && Follows(b, c)
    ensures Follows(a, c)
  {
    forall i | |a| <= i < |c| ensures StepTo(c, i) {
      if i < |b| {
        assert StepTo(b, i) && b[i] == c[i] && b[i - 1] == c[i - 1];
      }
    }
  }

  lemma RunsFollow(run: seq<State>, longer: seq<State>)
    requires Run(run) && Follows(run, longer)
    ensures Run(longer)
  {
    FollowOn(run[..1], run, longer);
    assert run[..1] == longer[..1];
  }

  lemma RunsShrink(run: seq<State>)
    requires Run(run) && |run| > 1
    ensures Run(run[..|run| - 1])
  {
    var n := |run| - 1;
    assert run[..n][..1] == run[..1];
    forall i | 1 <= i < n ensures StepTo(run[..n], i) {
      assert StepTo(run, i);
    }
  }

  // ----- what keeps the guard

  /** From taking the barrier until the snapshot directory has been hashed. */
  predicate Capturing(b: Backup) {
    b.Locked? || b.Pinned? || b.Walking?
  }

  /** Nobody cuts the barrier session of a backup that is still capturing, and no restore cleans up during a walk. */
  predicate Undisturbed(s: State, step: Step) {
    && (step.BarrierSessionDies? && step.b in s.backups ==> !Capturing(s.backups[step.b]))
    && (step.Unlink? && step.cleaner.None? && step.b in s.backups ==> !s.backups[step.b].Walking?)
  }

  ghost predicate UpStep(s: State, s': State, now: nat) {
    exists step :: Undisturbed(s, step) && Dated(step, now) && Next(s, step, s')
  }

  /** A run in which every barrier session outlives its capture. */
  ghost predicate UpRun(run: seq<State>) {
    |run| > 0 && Init(run[0]) && forall i :: 0 < i < |run| ==> UpStep(run[i - 1], run[i], i - 1)
  }

  /** While a backup captures, the lock is its own. */
  ghost predicate HoldersCapture(s: State) {
    forall b :: b in s.backups && Capturing(s.backups[b]) ==> s.holder == Some(b)
  }

  lemma HoldersStay(s: State, step: Step, s': State)
    requires HoldersCapture(s) && Undisturbed(s, step) && Next(s, step, s')
    ensures HoldersCapture(s') && Guarded(s, step)
  {
    hide Contents;
  }

  /** Sessions that stay up keep every request and every other backup out of a capture: the lock does its work. */
  lemma {:induction false} UpRunsAreGuarded(run: seq<State>)
    requires UpRun(run)
    ensures Run(run) && HoldersCapture(run[|run| - 1])
  {
    hide Next, Guarded, Undisturbed, HoldersCapture, Init;
    var n := |run| - 1;
    if n == 0 {
      NobodyCaptures(run[0]);
    } else {
      UpRunsAreGuarded(run[..n]);
      assert UpStep(run[n - 1], run[n], n - 1);
      var step :| Undisturbed(run[n - 1], step) && Dated(step, n - 1) && Next(run[n - 1], step, run[n]);
      HoldersStay(run[n - 1], step, run[n]);
      assert StepTo(run, n);
      RunsFollow(run[..n], run);
    }
  }

  lemma NobodyCaptures(s: State)
    requires Init(s)
    ensures HoldersCapture(s)
  {
  }

  // ----- what keeps requests out, and no longer

  /** Only a backup that is still to release the lock holds it. */
  ghost predicate LockIsUsed(s: State) {
    s.holder.Some? ==> s.holder.value in s.backups && !s.backups[s.holder.value].Released?
  }

  /** No step leaves the lock behind, least of all the one that ends a backup that failed. */
  lemma LockStaysUsed(s: State, step: Step, s': State)
    requires LockIsUsed(s) && Next(s, step, s')
    ensures LockIsUsed(s')
    ensures step.Abandon? || (step.Advance? && step.phase.Release?) ==> s'.holder != Some(step.b)
  {
    hide Contents;
  }

  lemma {:induction false} LockIsNeverLeftBehind(run: seq<State>)
    requires Run(run)
    ensures LockIsUsed(run[|run| - 1])
  {
    hide Next, Guarded, LockIsUsed;
    var n := |run| - 1;
    if n == 0 {
      NobodyHolds(run[0]);
    } else {
      RunsShrink(run);
      LockIsNeverLeftBehind(run[..n]);
      assert StepTo(run, n);
      var step :| Guarded(run[n - 1], step) && Dated(step, n - 1) && Next(run[n - 1], step, run[n]);
      LockStaysUsed(run[n - 1], step, run[n]);
    }
  }

  lemma NobodyHolds(s: State)
    requires Init(s)
    ensures LockIsUsed(s)
  {
  }

  /**
   The pause of the installation: while a backup captures no request begins, and as soon as every
   backup has released the lock, or failed, any request can.
   */
  lemma PauseEnds(run: seq<State>, w: WriterId)
    requires UpRun(run) && w !in run[|run| - 1].writers
    ensures var s := run[|run| - 1];
            && ((exists b :: b in s.backups && Capturing(s.backups[b])) ==>
                  forall s' :: !Next(s, AcquireShared(w), s'))
            && ((forall b :: b in s.backups ==> s.backups[b].Released?) ==>
                  Next(s, AcquireShared(w), s.(writers := s.writers + {w})))
  {
    hide Run;
    UpRunsAreGuarded(run);
    LockIsNeverLeftBehind(run);
    var s := run[|run| - 1];
    if forall b :: b in s.backups ==> s.backups[b].Released? {
      assert s.holder.None?;
    }
  }

  /** Between requests nothing a backup or a clean-up does changes the installation. */
  lemma QuietMeansStill(s: State, step: Step, s': State)
    requires Grounded(s) && s.writers == {} && Next(s, step, s')
    ensures s'.db == s.db && Tree(s') == Tree(s)
  {
  }

  ghost function Rank(b: Backup): nat {
    match b
    case Locked => 0
    case Pinned(_, _) => 1
    case Walking(_, _) => 2
    case Hashed(_, _) => 3
    case MetaRead(_, _, _) => 4
    case Released(_, _, _) => 5
  }

  /** A backup goes through its phases one by one and never back; what it hashes is there and walked through. */
  lemma BackupsGoForward(s: State, step: Step, s': State, b: BackupId)
    requires Next(s, step, s') && b in s.backups && b in s'.backups
    ensures Rank(s'.backups[b]) == Rank(s.backups[b])
            || (step.Advance? && step.b == b && Rank(s'.backups[b]) == Rank(s.backups[b]) + 1)
    ensures s'.backups[b].Hashed? && s.backups[b].Walking? ==>
              s.backups[b].todo == {} && s.backups[b].capture.present
  {
    hide Contents;
  }

  // ----- one instant

  /** Between two requests: no writer is half way through its database and file writes. */
  ghost predicate Quiet(s: State) {
    s.writers == {}
  }

  /**
   The archive is the installation as it stood in the i-th state of the run, less exactly the
   files that could be neither linked nor copied.
   */
  ghost predicate TakenAt(run: seq<State>, i: nat, a: Finished) {
    && i < |run| && Quiet(run[i])
    && a.dump == run[i].db && a.version == run[i].db.version
    && a.skipped == a.refused && a.refused <= Tree(run[i]).Keys
    && a.objects == Tree(run[i]) - a.refused && a.files == a.objects
    && a.degraded == (a.refused != {})
  }

  /** An archive is marked degraded exactly when it is not the whole tree of its instant. */
  lemma DegradedIsIncomplete(run: seq<State>, i: nat, a: Finished)
    requires TakenAt(run, i, a)
    ensures a.objects == Tree(run[i]) <==> a.refused == {}
    ensures a.degraded <==> a.objects != Tree(run[i])
  {
    var tree := Tree(run[i]);
    if a.refused != {} {
      var key :| key in a.refused;
      assert key in tree && key !in a.objects;
    } else {
      assert tree - {} == tree;
    }
  }

  /** The instant a capture in progress belongs to. */
  ghost predicate PinnedAt(run: seq<State>, i: nat, view: Database) {
    i < |run| && Quiet(run[i]) && run[i].db == view
  }

  ghost predicate InodesKept(before: map<Inode, Bytes>, after: map<Inode, Bytes>) {
    forall n :: n in before ==> n in after && after[n] == before[n]
  }

  ghost predicate Sound(s: State) {
    && Grounded(s)
    && forall b :: b in s.backups && Exposed(s.backups[b]) ==> s.writers == {}
  }

  /** The snapshot directory shows the files that were captured, whatever inode they are in. */
  ghost predicate Mirrors(c: Capture, files: map<Key, Inode>, inodes: map<Inode, Bytes>) {
    forall k :: k in c.snap ==>
      && k in files && files[k] in inodes && c.snap[k] in inodes && inodes[c.snap[k]] == inodes[files[k]]
  }

  ghost predicate Partial(c: Capture, todo: set<Key>, files: map<Key, Inode>, inodes: map<Inode, Bytes>) {
    && c.skipped == c.refused && c.skipped !! todo && c.snap.Keys !! (todo + c.skipped)
    && c.snap.Keys + c.skipped + todo == files.Keys && Mirrors(c, files, inodes) && (c.snap != map[] ==> c.present)
  }

  /** What is left in the directory shows what was hashed. */
  ghost predicate Shows(snap: map<Key, Inode>, objects: map<Key, Bytes>, inodes: map<Inode, Bytes>) {
    forall k :: k in snap ==> k in objects && snap[k] in inodes && inodes[snap[k]] == objects[k]
  }

  ghost predicate Complete(run: seq<State>, c: Capture, objects: map<Key, Bytes>, inodes: map<Inode, Bytes>) {
    && PinnedAt(run, c.at, c.view) && c.skipped == c.refused && c.refused <= Tree(run[c.at]).Keys
    && objects == Tree(run[c.at]) - c.refused && Shows(c.snap, objects, inodes)
  }

  /** The phase of a backup agrees with the instant it pinned. */
  ghost predicate CaptureOk(run: seq<State>, s: State, b: Backup) {
    match b
    case Locked => true
    case Pinned(at, view) => PinnedAt(run, at, view) && run[at].files == s.files
    case Walking(c, todo) =>
      && PinnedAt(run, c.at, c.view) && Partial(c, todo, run[c.at].files, s.inodes)
      && (todo != {} ==> run[c.at].files == s.files)
    case Hashed(c, objects) => Complete(run, c, objects, s.inodes)
    case MetaRead(c, objects, version) => Complete(run, c, objects, s.inodes) && version == c.view.version
    case Released(c, objects, version) => Complete(run, c, objects, s.inodes) && version == c.view.version
  }

  ghost predicate History(run: seq<State>, s: State) {
    forall i {:trigger run[i]} :: 0 <= i < |run| ==> Sound(run[i]) && InodesKept(run[i].inodes, s.inodes)
  }

  ghost predicate Inv(run: seq<State>) {
    && |run| > 0
    && var s := run[|run| - 1];
    && Sound(s) && History(run, s)
    && (forall b :: b in s.backups ==> CaptureOk(run, s, s.backups[b]))
    && (forall a :: a in s.archives ==> TakenAt(run, a.at, a))
  }

  // ----- the invariant is kept

  lemma TreeKept(s: State, inodes: map<Inode, Bytes>)
    requires Grounded(s) && InodesKept(s.inodes, inodes)
    ensures Contents(s.files, inodes) == Tree(s)
  {
  }

  /** Steps keep inodes, and the files too unless a writer takes them. */
  lemma StepKeepsInodes(s: State, step: Step, s': State)
    requires Next(s, step, s')
    ensures InodesKept(s.inodes, s'.inodes)
    ensures s'.files == s.files || s.writers != {}
    ensures s'.archives == s.archives || step.WriteArchive?
  {
    hide Contents, After;
  }

  lemma StepKeepsSound(s: State, step: Step, s': State)
    requires Sound(s) && Guarded(s, step) && Next(s, step, s')
    ensures Sound(s')
  {
    hide Contents;
  }

  /** A capture that a step does not touch survives it: no writer can reach the files still to be linked. */
  lemma CaptureSurvives(run: seq<State>, s: State, s': State, b: Backup)
    requires CaptureOk(run, s, b) && InodesKept(s.inodes, s'.inodes)
    requires Exposed(b) ==> s'.files == s.files
    ensures CaptureOk(run + [s'], s', b)
  {
    hide Contents, Tree;
  }

  /** So does one whose directory is cleaned up after it was hashed, or while there is nothing in it. */
  lemma CaptureSurvivesCleanup(run: seq<State>, s: State, s': State, b: Backup, snap: map<Key, Inode>, present: bool)
    requires CaptureOk(run, s, b) && HasDir(b) && s'.files == s.files && s'.inodes == s.inodes
    requires !b.Walking? || snap == b.capture.snap == map[]
    requires forall k :: k in snap ==> k in b.capture.snap && snap[k] == b.capture.snap[k]
    ensures CaptureOk(run + [s'], s', WithSnap(b, snap, present))
  {
    hide Contents, Tree;
  }

  /** Each phase of a backup moves its capture on without leaving the instant. */
  lemma CaptureAdvances(run: seq<State>, b: BackupId, phase: Phase, s': State)
    requires |run| > 0 && Dated(Advance(b, phase), |run| - 1)
    requires var s := run[|run| - 1];
             && Sound(s) && History(run, s) && b in s.backups && CaptureOk(run, s, s.backups[b])
             && Next(s, Advance(b, phase), s')
    ensures CaptureOk(run + [s'], s', s'.backups[b])
  {
    hide Contents;
    var s := run[|run| - 1];
    match phase
    case Pin(now) => assert (run + [s'])[now] == s;
    case List => ListAdvances(run, s, s.backups[b], s');
    case Link(key, how) => LinkAdvances(s, s.backups[b], key, how);
    case Hash => HashAdvances(run, s.backups[b].capture, s);
    case ReadMeta =>
    case Release =>
  }

  lemma ListAdvances(run: seq<State>, s: State, b: Backup, s': State)
    requires b.Pinned? && CaptureOk(run, s, b) && s'.files == s.files && s'.inodes == s.inodes
    ensures CaptureOk(run + [s'], s', After(s, b, List))
  {
  }

  lemma LinkAdvances(s: State, b: Backup, key: Key, how: Linking)
    requires Grounded(s) && Enabled(s, b, Link(key, how)) && Partial(b.capture, b.todo, s.files, s.inodes)
    ensures Partial(Captured(s, b.capture, key, how), b.todo - {key}, s.files, InodesAfter(s, Link(key, how)))
  {
    var c := Captured(s, b.capture, key, how);
    assert c.snap.Keys + c.skipped + (b.todo - {key}) == s.files.Keys;
  }

  lemma HashAdvances(run: seq<State>, c: Capture, s: State)
    requires PinnedAt(run, c.at, c.view) && Partial(c, {}, run[c.at].files, s.inodes)
    requires Grounded(run[c.at]) && InodesKept(run[c.at].inodes, s.inodes)
    ensures Complete(run, c, Contents(c.snap, s.inodes), s.inodes)
  {
    var i := c.at;
    TreeKept(run[i], s.inodes);
    var tree, shown := Tree(run[i]), Contents(c.snap, s.inodes);
    assert tree.Keys == run[i].files.Keys;
    assert shown.Keys == c.snap.Keys;
    assert (tree - c.refused).Keys == tree.Keys - c.refused;
    assert shown.Keys == (tree - c.refused).Keys;
    forall k | k in shown ensures shown[k] == (tree - c.refused)[k] {
      assert tree[k] == s.inodes[run[i].files[k]];
    }
  }

  /** The archive of a released backup belongs to its instant. */
  lemma ResultIsTaken(run: seq<State>, s: State, b: Backup)
    requires b.Released? && b.objects.Keys <= b.capture.snap.Keys && CaptureOk(run, s, b)
    ensures TakenAt(run, b.capture.at, Result(s, b))
  {
    assert Contents(b.capture.snap, s.inodes) == b.objects;
  }

  lemma TakenStays(run: seq<State>, longer: seq<State>, i: nat, a: Finished)
    requires TakenAt(run, i, a) && run <= longer
    ensures TakenAt(longer, i, a)
  {
  }

  lemma ArchivesKept(run: seq<State>, step: Step, s': State)
    requires Inv(run) && Next(run[|run| - 1], step, s')
    ensures forall a :: a in s'.archives ==> TakenAt(run + [s'], a.at, a)
  {
    hide TakenAt, CaptureOk, Contents, After, Sound, History;
    var s := run[|run| - 1];
    StepKeepsInodes(s, step, s');
    forall a | a in s'.archives ensures TakenAt(run + [s'], a.at, a) {
      if a !in s.archives {
        ResultIsTaken(run, s, s.backups[step.b]);
      }
      TakenStays(run, run + [s'], a.at, a);
    }
  }

  lemma BackupsKept(run: seq<State>, step: Step, s': State, b: BackupId)
    requires Inv(run) && Guarded(run[|run| - 1], step) && Dated(step, |run| - 1) && Next(run[|run| - 1], step, s')
    requires b in s'.backups
    ensures CaptureOk(run + [s'], s', s'.backups[b])
  {
    var s := run[|run| - 1];
    if step != LockExclusive(b) {
      hide CaptureOk, TakenAt, History, Contents;
      if step.Advance? && step.b == b {
        CaptureAdvances(run, b, step.phase, s');
      } else if (step.Unlink? || step.RemoveDir?) && step.b == b {
        var c := s'.backups[b].capture;
        CaptureSurvivesCleanup(run, s, s', s.backups[b], c.snap, c.present);
      } else {
        StepKeepsInodes(s, step, s');
        CaptureSurvives(run, s, s', s.backups[b]);
      }
    }
  }

  lemma HistoryGrows(run: seq<State>, s: State, s': State)
    requires History(run, s) && InodesKept(s.inodes, s'.inodes) && Sound(s')
    ensures History(run + [s'], s')
  {
    hide Sound;
  }

  /** Every guarded step of a writer, a backup or a cleanup keeps the invariant. */
  lemma InvKept(run: seq<State>, step: Step, s': State)
    requires Inv(run) && Guarded(run[|run| - 1], step) && Dated(step, |run| - 1) && Next(run[|run| - 1], step, s')
    ensures Inv(run + [s'])
  {
    var s := run[|run| - 1];
    StepKeepsInodes(s, step, s');
    StepKeepsSound(s, step, s');
    HistoryGrows(run, s, s');
    ArchivesKept(run, step, s');
    forall b | b in s'.backups ensures CaptureOk(run + [s'], s', s'.backups[b]) {
      BackupsKept(run, step, s', b);
    }
    hide Next, Guarded, CaptureOk, TakenAt, Sound, History;
    assert (run + [s'])[|run|] == s';
  }

  lemma FirstStateIsSound(run: seq<State>)
    requires |run| == 1 && Init(run[0])
    ensures Inv(run)
  {
  }

  lemma {:induction false} RunsAreSound(run: seq<State>)
    requires Run(run)
    ensures Inv(run)
  {
    hide Inv, Next, Init, Guarded;
    if |run| == 1 {
      FirstStateIsSound(run);
    } else {
      var n := |run| - 1;
      RunsShrink(run);
      RunsAreSound(run[..n]);
      assert StepTo(run, n);
      var step :| Guarded(run[n - 1], step) && Dated(step, n - 1) && Next(run[n - 1], step, run[n]);
      InvKept(run[..n], step, run[n]);
      assert run == run[..n] + [run[n]];
    }
  }

  /**
   In every interleaving of writers, backups and cleanups in which no request begins before the last
   file of a backup is linked and nothing is taken out of a snapshot before it is hashed, every
   archive Create finishes is the installation as it stood at the single instant its view was pinned
   at, no writer being mid-request: the dump, the schema version, the hashed objects and the streamed
   bytes all belong to that instant, and what is missing is exactly what the system refused.
   */
  lemma {:induction false} ArchivesDescribeOneInstant(run: seq<State>, a: Finished)
    requires Run(run) && a in run[|run| - 1].archives
    ensures TakenAt(run, a.at, a)
  {
    RunsAreSound(run);
  }

  // ----- backups that run to their end

  ghost function Last(run: seq<State>): State
    requires |run| > 0
  {
    run[|run| - 1]
  }

  predicate Alike(s: State, t: State) {
    s.db == t.db && s.files == t.files && s.inodes == t.inodes
  }

  /** The longer run goes on with states that show the installation of the shorter one's end. */
  ghost predicate Still(run: seq<State>, longer: seq<State>)
    ensures Still(run, longer) ==> 0 < |run| <= |longer|
  {
    Follows(run, longer) && forall i :: |run| <= i < |longer| ==> Alike(longer[i], Last(run))
  }

  lemma StillHere(run: seq<State>)
    requires |run| > 0
    ensures Still(run, run)
  {
  }

  lemma StillOn(a: seq<State>, b: seq<State>, c: seq<State>)
    requires Still(a, b) && Still(b, c)
    ensures Still(a, c)
  {
    hide StepTo;
    FollowOn(a, b, c);
    forall i | |a| <= i < |c| ensures Alike(c[i], Last(a)) {
      assert i < |b| ==> c[i] == b[i];
      assert Last(b) == b[|b| - 1] && (|b| == |a| ==> Last(b) == Last(a));
    }
  }

  lemma Extend(run: seq<State>, step: Step, s': State) returns (longer: seq<State>)
    requires |run| > 0 && Guarded(Last(run), step) && Dated(step, |run| - 1) && Next(Last(run), step, s')
    ensures longer == run + [s'] && Follows(run, longer)
  {
    hide Next, Guarded;
    longer := run + [s'];
    assert StepTo(longer, |run|);
  }

  /** A step that leaves the installation alone. */
  lemma Pass(run: seq<State>, step: Step, s': State) returns (longer: seq<State>)
    requires |run| > 0 && Guarded(Last(run), step) && Dated(step, |run| - 1) && Next(Last(run), step, s')
    requires Alike(s', Last(run))
    ensures Still(run, longer) && |longer| == |run| + 1 && Last(longer) == s'
  {
    hide Next, Guarded, StepTo;
    longer := Extend(run, step, s');
  }

  /** One phase of one backup. */
  lemma Proceed(run: seq<State>, b: BackupId, phase: Phase) returns (longer: seq<State>)
    requires |run| > 0 && b in Last(run).backups && Enabled(Last(run), Last(run).backups[b], phase)
    requires !(phase.Link? && phase.how.Copied?) && Dated(Advance(b, phase), |run| - 1)
    ensures Still(run, longer) && |longer| == |run| + 1
    ensures Last(longer)
            == Last(run).(backups := Last(run).backups[b := After(Last(run), Last(run).backups[b], phase)],
                          holder := if phase.Release? then Unlocked(Last(run).holder, b) else Last(run).holder)
  {
    hide After, Contents, Still;
    var s := Last(run);
    var s' := s.(backups := s.backups[b := After(s, s.backups[b], phase)],
                 holder := if phase.Release? then Unlocked(s.holder, b) else s.holder);
    longer := Pass(run, Advance(b, phase), s');
  }

  function LinksOf(files: map<Key, Inode>, keys: set<Key>): map<Key, Inode> {
    map k | k in files && k in keys :: files[k]
  }

  /** The capture once the rest is walked, these files being refused. */
  ghost function Swept(c: Capture, todo: set<Key>, files: map<Key, Inode>, refused: set<Key>): Capture {
    var missed := todo * refused;
    Capture(c.at, c.view, c.snap + LinksOf(files, todo - refused), c.present || todo != {}, c.skipped + missed,
            c.refused + missed)
  }

  lemma OneLinkFirst(snap: map<Key, Inode>, files: map<Key, Inode>, keys: set<Key>, key: Key)
    requires key in keys && key in files
    ensures snap[key := files[key]] + LinksOf(files, keys - {key}) == snap + LinksOf(files, keys)
  {
  }

  lemma SweptStep(s: State, c: Capture, todo: set<Key>, refused: set<Key>, key: Key)
    requires todo <= s.files.Keys && key in todo
    ensures var how := if key in refused then Refused else Linked;
            Swept(Captured(s, c, key, how), todo - {key}, s.files, refused) == Swept(c, todo, s.files, refused)
  {
    hide LinksOf;
    var rest := todo - {key};
    if key in refused {
      assert rest * refused + {key} == todo * refused && rest - refused == todo - refused;
      assert c.skipped + {key} + rest * refused == c.skipped + todo * refused;
      assert c.refused + {key} + rest * refused == c.refused + todo * refused;
    } else {
      assert rest * refused == todo * refused && rest - refused == (todo - refused) - {key};
      OneLinkFirst(c.snap, s.files, todo - refused, key);
    }
  }

  lemma SweptNothing(c: Capture, files: map<Key, Inode>, refused: set<Key>)
    ensures Swept(c, {}, files, refused) == c
  {
    assert Swept(c, {}, files, refused).snap == c.snap;
  }

  /** A stretch of the walk, with any set of files refused. */
  lemma {:induction false} Walk(run: seq<State>, b: BackupId, c: Capture, now: set<Key>, later: set<Key>,
                                refused: set<Key>)
    returns (longer: seq<State>)
    requires |run| > 0 && b in Last(run).backups && Last(run).backups[b] == Walking(c, now + later)
    requires now <= Last(run).files.Keys && now !! later
    ensures Still(run, longer)
    ensures Last(longer)
            == Last(run).(backups := Last(run).backups[b := Walking(Swept(c, now, Last(run).files, refused), later)])
    decreases now
  {
    hide Contents, Still, Swept, Captured;
    if now == {} {
      longer := run;
      StillHere(run);
      SweptNothing(c, Last(run).files, refused);
      assert now + later == later;
    } else {
      var key :| key in now;
      var how := if key in refused then Refused else Linked;
      var once := Proceed(run, b, Link(key, how));
      assert now + later - {key} == (now - {key}) + later;
      SweptStep(Last(run), c, now, refused, key);
      longer := Walk(once, b, Captured(Last(run), c, key, how), now - {key}, later, refused);
      StillOn(run, once, longer);
    }
  }

  /** What Create writes for a capture that was walked to its end. */
  ghost function Written(s: State, c: Capture): Finished {
    var shown := Contents(c.snap, s.inodes);
    Finished(c.at, c.view, c.view.version, shown, shown, c.skipped, c.refused, c.skipped != {})
  }

  /** What a backup writes whose view is pinned, whose walk is refused these files and which nobody disturbs. */
  ghost function Report(s: State, at: nat, view: Database, refused: set<Key>): Finished {
    Finished(at, view, view.version, Tree(s) - refused, Tree(s) - refused, refused, refused, refused != {})
  }

  /** From the middle of its walk on, a backup can run to its end, whichever files are refused. */
  lemma FinishWalk(run: seq<State>, b: BackupId, c: Capture, todo: set<Key>, refused: set<Key>)
    returns (longer: seq<State>)
    requires |run| > 0 && b in Last(run).backups && Last(run).backups[b] == Walking(c, todo)
    requires todo <= Last(run).files.Keys && (c.present || todo != {})
    ensures Still(run, longer)
    ensures Last(longer).archives
            == Last(run).archives + [Written(Last(run), Swept(c, todo, Last(run).files, refused))]
  {
    hide Contents, Still, Captured, LinksOf;
    var s := Last(run);
    assert todo + {} == todo;
    var walked := Walk(run, b, c, todo, {}, refused);
    var hashed := Proceed(walked, b, Hash);
    var read := Proceed(hashed, b, ReadMeta);
    var released := Proceed(read, b, Release);
    StillOn(run, walked, hashed);
    StillOn(run, hashed, read);
    StillOn(run, read, released);
    var end := Last(released);
    ShownAreLinked(end.backups[b].capture.snap, s.inodes);
    longer := Pass(released, WriteArchive(b),
                   end.(backups := end.backups - {b}, archives := end.archives + [Result(end, end.backups[b])]));
    StillOn(run, released, longer);
  }

  lemma ShownAreLinked(snap: map<Key, Inode>, inodes: map<Inode, Bytes>)
    ensures Contents(snap, inodes).Keys <= snap.Keys
  {
  }

  /** From the pin on, a backup can always run to its end, whichever files are refused. */
  lemma FinishBackup(run: seq<State>, b: BackupId, refused: set<Key>) returns (longer: seq<State>)
    requires |run| > 0 && b in Last(run).backups && Last(run).backups[b].Pinned?
    requires Grounded(Last(run)) && refused <= Last(run).files.Keys
    ensures Still(run, longer)
    ensures var p := Last(run).backups[b];
            Last(longer).archives == Last(run).archives + [Report(Last(run), p.at, p.view, refused)]
  {
    hide Contents, Still, Tree, Swept, Captured, Report, Written;
    var s := Last(run);
    var p := s.backups[b];
    var listed := Proceed(run, b, List);
    longer := FinishWalk(listed, b, Capture(p.at, p.view, map[], true, {}, {}), s.files.Keys, refused);
    StillOn(run, listed, longer);
    SweptAll(s, Last(listed), p.at, p.view, refused);
  }

  lemma SweptAll(s: State, listed: State, at: nat, view: Database, refused: set<Key>)
    requires Grounded(s) && refused <= s.files.Keys && listed.inodes == s.inodes
    ensures Written(listed, Swept(Capture(at, view, map[], true, {}, {}), s.files.Keys, s.files, refused))
            == Report(s, at, view, refused)
  {
    var c := Swept(Capture(at, view, map[], true, {}, {}), s.files.Keys, s.files, refused);
    assert c.skipped == refused && c.refused == refused;
    assert Contents(c.snap, s.inodes) == Tree(s) - refused;
  }

  lemma OneState(s: State)
    requires Init(s)
    ensures Run([s])
  {
  }

  /** A backup that took the lock in the first state and pinned its view in the second. */
  lemma Begun(s: State, b: BackupId) returns (run: seq<State>)
    requires Init(s)
    ensures Run(run) && Still([s], run) && Last(run) == s.(holder := Some(b), backups := map[b := Pinned(1, s.db)])
  {
    OneState(s);
    hide Run, Contents, Still;
    var locked := Pass([s], LockExclusive(b), s.(holder := Some(b), backups := map[b := Locked]));
    StillMeans([s], locked);
    run := Proceed(locked, b, Pin(1));
    StillOn([s], locked, run);
    StillMeans([s], run);
    RunsFollow([s], run);
  }

  lemma StillMeans(run: seq<State>, longer: seq<State>)
    requires Still(run, longer)
    ensures Follows(run, longer) && Alike(Last(longer), Last(run))
  {
  }

  /**
   From every first state, with any set of files refused, a run ends in an archive that lacks exactly
   those: the theorem is about something, and nothing less can be said of `refused`.
   */
  lemma AnyRefusalHappens(s: State, b: BackupId, refused: set<Key>) returns (run: seq<State>)
    requires Init(s) && refused <= s.files.Keys
    ensures Run(run) && run[0] == s && Last(run).archives == [Report(s, 1, s.db, refused)]
    ensures refused != {} ==> Report(s, 1, s.db, refused).degraded && Report(s, 1, s.db, refused).objects != Tree(s)
  {
    hide Run, Still;
    var begun := Begun(s, b);
    StillMeans([s], begun);
    run := FinishBackup(begun, b, refused);
    StillMeans(begun, run);
    RunsFollow(begun, run);
    if refused != {} {
      var key :| key in refused;
      assert key in Tree(s) && key !in Report(s, 1, s.db, refused).objects;
    }
  }

  // ----- the guard is exact

  /** Every other backup can give up. */
  lemma {:induction false} AbandonOthers(run: seq<State>, b: BackupId) returns (longer: seq<State>)
    requires |run| > 0 && b in Last(run).backups
    ensures Still(run, longer)
    ensures Last(longer).backups == map[b := Last(run).backups[b]]
    ensures Last(longer).writers == Last(run).writers && Last(longer).archives == Last(run).archives
    decreases Last(run).backups.Keys
  {
    hide Still;
    var s := Last(run);
    if o :| o in s.backups && o != b {
      var once := Pass(run, Abandon(o), s.(backups := s.backups - {o}, holder := Unlocked(s.holder, o)));
      longer := AbandonOthers(once, b);
      StillOn(run, once, longer);
    } else {
      longer := run;
      StillHere(run);
    }
  }

  /** No state with this view has a file of this content. */
  ghost predicate Unseen(run: seq<State>, view: Database, content: Bytes) {
    forall i :: 0 <= i < |run| && run[i].db == view ==> content !in run[i].inodes.Values
  }

  lemma {:induction false} LongerThanAll(contents: set<Bytes>) returns (n: nat)
    ensures forall c :: c in contents ==> |c| < n
  {
    if contents == {} {
      n := 0;
    } else {
      var c :| c in contents;
      n := LongerThanAll(contents - {c});
      n := if |c| < n then n else |c| + 1;
    }
  }

  lemma {:induction false} UnusedInode(inodes: set<Inode>) returns (n: Inode)
    ensures forall i :: i in inodes ==> i < n
  {
    if inodes == {} {
      n := 0;
    } else {
      var i :| i in inodes;
      var m := UnusedInode(inodes - {i});
      n := if i < m then m else i + 1;
      forall j | j in inodes ensures j < n {
        assert j == i || j in inodes - {i};
      }
    }
  }

  lemma {:induction false} UnusedVersion(run: seq<State>) returns (n: nat)
    ensures forall i :: 0 <= i < |run| ==> run[i].db.version < n
  {
    if run == [] {
      n := 0;
    } else {
      var last := |run| - 1;
      var m := UnusedVersion(run[..last]);
      n := if run[last].db.version < m then m else run[last].db.version + 1;
    }
  }

  lemma UnseenStays(run: seq<State>, longer: seq<State>, view: Database, content: Bytes)
    requires Unseen(run, view, content) && Still(run, longer)
    ensures Unseen(longer, view, content)
  {
    hide StepTo;
    forall i | 0 <= i < |longer| && longer[i].db == view ensures content !in longer[i].inodes.Values {
      if i < |run| {
        assert longer[i] == run[i];
      } else {
        assert Alike(longer[i], run[|run| - 1]);
      }
    }
  }

  lemma UnseenGrows(run: seq<State>, s': State, view: Database, content: Bytes)
    requires Unseen(run, view, content) && s'.db != view
    ensures Unseen(run + [s'], view, content)
  {
  }

  /** A content no state of the run has had. */
  lemma NewContent(run: seq<State>) returns (content: Bytes)
    requires Run(run)
    ensures forall i :: 0 <= i < |run| ==> content !in run[i].inodes.Values
  {
    RunsAreSound(run);
    hide Run, Sound;
    var n := LongerThanAll(Last(run).inodes.Values);
    content := seq(n, _ => 0);
    forall i | 0 <= i < |run| ensures content !in run[i].inodes.Values {
      assert History(run, Last(run)) && InodesKept(run[i].inodes, Last(run).inodes);
    }
  }

  /** The request that has begun changes the database and the file under this key, and ends. */
  lemma Tamper(run: seq<State>, w: WriterId, view: Database, key: Key, content: Bytes) returns (longer: seq<State>)
    requires |run| > 0 && w in Last(run).writers && Unseen(run, view, content)
    ensures Follows(run, longer) && Unseen(longer, view, content)
    ensures Last(longer).db != view && Last(longer).backups == Last(run).backups
    ensures Last(longer).archives == Last(run).archives && Last(longer).files.Keys == Last(run).files.Keys + {key}
    ensures key in Tree(Last(longer)) && Tree(Last(longer))[key] == content
    ensures Grounded(Last(run)) ==> Grounded(Last(longer))
  {
    hide Follows, Unseen;
    var s := Last(run);
    var inode := UnusedInode(s.inodes.Keys);
    var written := s.(db := Database(view.rows, view.version + 1));
    var one := Extend(run, WriteDatabase(w, written.db), written);
    UnseenGrows(run, written, view, content);
    var put := written.(files := s.files[key := inode], inodes := s.inodes[inode := content]);
    var two := Extend(one, PutFile(w, key, inode, content), put);
    UnseenGrows(one, put, view, content);
    var done := put.(writers := s.writers - {w});
    longer := Extend(two, ReleaseShared(w), done);
    UnseenGrows(two, done, view, content);
    FollowOn(run, one, two);
    FollowOn(run, two, longer);
  }

  /** An archive that shows this content beside that view matches no state. */
  lemma BlendMatchesNothing(run: seq<State>, a: Finished, key: Key, content: Bytes)
    requires Unseen(run, a.dump, content) && key in a.objects && a.objects[key] == content
    ensures forall i: nat :: !TakenAt(run, i, a)
  {
    forall i: nat | i < |run| && run[i].db == a.dump && key in Tree(run[i]) ensures Tree(run[i])[key] != content {
      assert Tree(run[i])[key] in run[i].inodes.Values;
    }
  }

  /** A request that begins after the pin and before the last link can end in a blend of two instants. */
  lemma RequestBlends(run: seq<State>, w: WriterId, s': State, b: BackupId) returns (longer: seq<State>, a: Finished)
    requires Run(run) && Next(Last(run), AcquireShared(w), s') && b in Last(run).backups
    requires Exposed(Last(run).backups[b]) && !Last(run).backups[b].Locked?
    ensures Follows(run + [s'], longer) && a in Last(longer).archives && forall i: nat :: !TakenAt(longer, i, a)
  {
    RunsAreSound(run);
    var content := NewContent(run);
    var s, base := Last(run), run + [s'];
    var p := s.backups[b];
    var view := if p.Pinned? then p.view else p.capture.view;
    var key := KeyToTamperWith(p);
    hide Run, Inv, Follows, Contents, Written, Swept, StepTo;
    assert Unseen(base, view, content) by { NothingSeen(run, s', view, content); }
    var alone := AbandonOthers(base, b);
    UnseenStays(base, alone, view, content);
    StillMeans(base, alone);
    var busy := Tamper(alone, w, view, key, content);
    var t := Last(busy);
    FollowOn(base, alone, busy);
    if p.Pinned? {
      longer := FinishBackup(busy, b, {});
      a := Report(t, p.at, view, {});
    } else {
      longer := FinishWalk(busy, b, p.capture, p.todo, {});
      a := Written(t, Swept(p.capture, p.todo, t.files, {}));
      LinkedIsWritten(t, p.capture, p.todo, key);
    }
    UnseenStays(busy, longer, view, content);
    StillMeans(busy, longer);
    FollowOn(base, busy, longer);
    BlendMatchesNothing(longer, a, key, content);
  }

  lemma KeyToTamperWith(b: Backup) returns (key: Key)
    requires b.Pinned? || (b.Walking? && b.todo != {})
    ensures b.Walking? ==> key in b.todo
  {
    if b.Walking? {
      key :| key in b.todo;
    } else {
      key := "";
    }
  }

  lemma NothingSeen(run: seq<State>, s': State, view: Database, content: Bytes)
    requires |run| > 0 && s'.inodes == Last(run).inodes
    requires forall i :: 0 <= i < |run| ==> content !in run[i].inodes.Values
    ensures Unseen(run + [s'], view, content)
  {
    assert content !in run[|run| - 1].inodes.Values;
  }

  lemma LinkedIsWritten(s: State, c: Capture, todo: set<Key>, key: Key)
    requires key in todo && key in Tree(s)
    ensures var a := Written(s, Swept(c, todo, s.files, {}));
            key in a.objects && a.objects[key] == Tree(s)[key] && a.dump == c.view
  {
    assert key in LinksOf(s.files, todo - {});
  }

  /** Whenever the database looks like this, a request is under way. */
  ghost predicate NeverQuiet(run: seq<State>, view: Database) {
    forall i :: 0 <= i < |run| && run[i].db == view ==> !Quiet(run[i])
  }

  lemma NeverQuietStays(run: seq<State>, longer: seq<State>, view: Database)
    requires NeverQuiet(run, view) && Still(run, longer) && Last(run).db != view
    ensures NeverQuiet(longer, view)
  {
    hide StepTo;
    forall i | |run| <= i < |longer| ensures longer[i].db != view {
      assert Alike(longer[i], run[|run| - 1]);
    }
  }

  lemma NeverQuietGrows(run: seq<State>, longer: seq<State>, view: Database)
    requires NeverQuiet(run, view) && run <= longer && |longer| == |run| + 1
    requires Last(longer).db == view ==> !Quiet(Last(longer))
    ensures NeverQuiet(longer, view)
  {
  }

  /** One that begins before the pin can leave the view in the middle of a request. */
  lemma RequestIsPinned(run: seq<State>, w: WriterId, s': State, b: BackupId) returns (longer: seq<State>, a: Finished)
    requires Run(run) && Next(Last(run), AcquireShared(w), s') && b in Last(run).backups && Last(run).backups[b].Locked?
    ensures Follows(run + [s'], longer) && a in Last(longer).archives && forall i: nat :: !TakenAt(longer, i, a)
  {
    RunsAreSound(run);
    var base := run + [s'];
    var v := UnusedVersion(base);
    var view, next := Database.Database(map[], v), Database.Database(map[], v + 1);
    hide Run, Inv, Follows, Contents, Report, StepTo, Still;
    var alone := AbandonOthers(base, b);
    NeverQuietStays(base, alone, view);
    StillMeans(base, alone);
    var one := Extend(alone, WriteDatabase(w, view), Last(alone).(db := view));
    NeverQuietGrows(alone, one, view);
    var two := Proceed(one, b, Pin(|one| - 1));
    StillMeans(one, two);
    FollowsIsPrefix(one, two);
    NeverQuietGrows(one, two, view);
    var three := Extend(two, WriteDatabase(w, next), Last(two).(db := next));
    NeverQuietGrows(two, three, view);
    var busy := Extend(three, ReleaseShared(w), Last(three).(writers := Last(three).writers - {w}));
    NeverQuietGrows(three, busy, view);
    var p := Last(busy).backups[b];
    longer := FinishBackup(busy, b, {});
    NeverQuietStays(busy, longer, view);
    StillMeans(busy, longer);
    FollowOn(base, alone, one);
    FollowOn(base, one, two);
    FollowOn(base, two, three);
    FollowOn(base, three, busy);
    FollowOn(base, busy, longer);
    a := Report(Last(busy), p.at, p.view, {});
    PinnedDumpIsReported(Last(busy), p.at, p.view);
  }

  lemma FollowsIsPrefix(run: seq<State>, longer: seq<State>)
    requires Follows(run, longer)
    ensures run <= longer
  {
  }

  lemma PinnedDumpIsReported(s: State, at: nat, view: Database)
    ensures Report(s, at, view, {}).dump == view
  {
  }

  lemma SweptIsPartial(c: Capture, todo: set<Key>, files: map<Key, Inode>, inodes: map<Inode, Bytes>)
    requires Partial(c, todo, files, inodes) && forall k :: k in files ==> files[k] in inodes
    ensures Partial(Swept(c, todo, files, {}), {}, files, inodes)
    ensures Swept(c, todo, files, {}).refused == c.refused
  {
    var d := Swept(c, todo, files, {});
    assert d.skipped == c.skipped && d.refused == c.refused;
    assert LinksOf(files, todo - {}).Keys == todo;
  }

  /** A file taken out of a snapshot before it is hashed can be missing from the archive, which does not say so. */
  lemma UnlinkLosesAFile(run: seq<State>, step: Step, s': State) returns (longer: seq<State>, a: Finished)
    requires Run(run) && step.Unlink? && Next(Last(run), step, s') && Last(run).backups[step.b].Walking?
    ensures Follows(run + [s'], longer) && Still(run + [s'], longer)
    ensures Last(longer).archives == Last(run).archives + [a]
    ensures var c := Last(run).backups[step.b].capture;
            && a.at == c.at < |run| && a.refused == c.refused == a.skipped && a.degraded == (a.refused != {})
            && step.key in Tree(run[c.at]) - a.refused && a.objects == Tree(run[c.at]) - a.refused - {step.key}
    ensures !TakenAt(longer, a.at, a)
  {
    RunsAreSound(run);
    var s, base := Last(run), run + [s'];
    var b := s.backups[step.b];
    var c, todo := b.capture, b.todo;
    assert CaptureOk(run, s, b) && History(run, s);
    var files := run[c.at].files;
    assert Sound(run[c.at]) && InodesKept(run[c.at].inodes, s.inodes);
    assert todo != {} ==> files == s.files;
    var less := c.(snap := c.snap - {step.key});
    hide Run, Inv, Follows, StepTo, Still;
    longer := FinishWalk(base, step.b, less, todo, {});
    StillMeans(base, longer);
    a := Written(s', Swept(less, todo, s'.files, {}));
    if todo == {} {
      SweptNothing(c, files, {});
      SweptNothing(less, s'.files, {});
    } else {
      SweptWithout(c, todo, files, step.key);
    }
    SweptIsPartial(c, todo, files, s.inodes);
    var full := Swept(c, todo, files, {});
    HashAdvances(run, full, s);
    assert a == Written(s', full.(snap := full.snap - {step.key}));
    WrittenWithout(s', full, step.key);
    assert step.key in full.snap;
    FollowsIsPrefix(base, longer);
    assert longer[c.at] == base[c.at] == run[c.at];
  }

  lemma SweptWithout(c: Capture, todo: set<Key>, files: map<Key, Inode>, key: Key)
    requires key in c.snap && key !in todo
    ensures var full := Swept(c, todo, files, {});
            Swept(c.(snap := c.snap - {key}), todo, files, {}) == full.(snap := full.snap - {key})
  {
  }

  lemma WrittenWithout(s: State, c: Capture, key: Key)
    ensures Written(s, c.(snap := c.snap - {key})).objects == Contents(c.snap, s.inodes) - {key}
  {
  }

  /**
   The guard is exact. After a guarded run, a step is guarded exactly when no continuation by guarded
   steps ends in an archive that is not the installation at the instant it pinned.
   */
  lemma GuardIsExact(run: seq<State>, step: Step, s': State)
    requires Run(run) && Dated(step, |run| - 1) && Next(Last(run), step, s')
    ensures Guarded(Last(run), step) <==>
            forall longer, a :: Follows(run + [s'], longer) && a in Last(longer).archives ==> TakenAt(longer, a.at, a)
  {
    var s := Last(run);
    if Guarded(s, step) {
      hide Run, Follows, Next, Guarded, TakenAt, StepTo;
      var base := Extend(run, step, s');
      forall longer, a | Follows(base, longer) && a in Last(longer).archives ensures TakenAt(longer, a.at, a) {
        FollowOn(run, base, longer);
        RunsFollow(run, longer);
        ArchivesDescribeOneInstant(longer, a);
      }
    } else {
      hide Run, Follows, TakenAt, StepTo;
      var longer, a;
      if step.AcquireShared? {
        var b :| b in s.backups && Exposed(s.backups[b]);
        if s.backups[b].Locked? {
          longer, a := RequestIsPinned(run, step.w, s', b);
        } else {
          longer, a := RequestBlends(run, step.w, s', b);
        }
      } else {
        longer, a := UnlinkLosesAFile(run, step, s');
      }
      assert !TakenAt(longer, a.at, a);
    }
  }

  /** A backup that has walked these files and may have others left. */
  lemma HalfWalked(s: State, a: BackupId, before: set<Key>) returns (run: seq<State>)
    requires Init(s) && before <= s.files.Keys
    ensures Run(run) && Still([s], run)
    ensures Last(run) == s.(holder := Some(a),
                            backups := map[a := Walking(Capture(1, s.db, LinksOf(s.files, before), true, {}, {}),
                                                        s.files.Keys - before)])
  {
    hide Run, Contents, Still, Captured, Swept, LinksOf;
    var begun := Begun(s, a);
    StillMeans([s], begun);
    var listed := Proceed(begun, a, List);
    var c, later := Capture(1, s.db, map[], true, {}, {}), s.files.Keys - before;
    assert before + later == s.files.Keys;
    run := Walk(listed, a, c, before, later, {});
    SweptNone(c, before, s.files);
    StillOn(begun, listed, run);
    StillOn([s], begun, run);
    StillMeans(begun, run);
    RunsFollow(begun, run);
  }

  lemma SweptNone(c: Capture, todo: set<Key>, files: map<Key, Inode>)
    requires c.snap == map[]
    ensures Swept(c, todo, files, {})
            == Capture(c.at, c.view, LinksOf(files, todo), c.present || todo != {}, c.skipped, c.refused)
  {
    assert todo * {} == {} && todo - {} == todo;
    assert c.skipped + {} == c.skipped && c.refused + {} == c.refused;
    assert map[] + LinksOf(files, todo) == LinksOf(files, todo);
  }

  /** A session that dies is enough to let a request in. */
  lemma LostLockLetsRequestsIn(s: State, b: BackupId, w: WriterId) returns (run: seq<State>, s': State)
    requires Init(s)
    ensures Run(run) && run[0] == s && Next(Last(run), AcquireShared(w), s') && !Guarded(Last(run), AcquireShared(w))
  {
    hide Run, Still;
    var begun := Begun(s, b);
    StillMeans([s], begun);
    FollowsIsPrefix([s], begun);
    run := Pass(begun, BarrierSessionDies(b), Last(begun).(holder := None));
    StillMeans(begun, run);
    RunsFollow(begun, run);
    FollowsIsPrefix(begun, run);
    s' := Last(run).(writers := {w});
    assert b in Last(run).backups && Exposed(Last(run).backups[b]);
  }

  /** The cleanups of a restore, which takes no lock, and of a second backup, once the lock is lost, reach a walk. */
  lemma CleanupReachesAWalk(s: State, a: BackupId, before: set<Key>, key: Key, cleaner: Option<BackupId>)
    returns (run: seq<State>, s': State)
    requires Init(s) && before <= s.files.Keys && key in before && cleaner != Some(a)
    ensures Run(run) && Still([s], run) && Next(Last(run), Unlink(cleaner, a, key), s') && Alike(s', s)
    ensures !Guarded(Last(run), Unlink(cleaner, a, key)) && Last(run).backups[a].capture.refused == {}
  {
    hide Run, Still, Contents;
    run := HalfWalked(s, a, before);
    var walking := Last(run).backups[a];
    assert key in LinksOf(s.files, before);
    if cleaner.Some? {
      var b := cleaner.value;
      var half := run;
      var dead := Pass(half, BarrierSessionDies(a), Last(half).(holder := None));
      var locked := Pass(dead, LockExclusive(b), Last(dead).(holder := cleaner,
                                                             backups := Last(dead).backups[b := Locked]));
      run := Proceed(locked, b, Pin(|locked| - 1));
      StillOn(half, dead, locked);
      StillOn(half, locked, run);
      StillMeans(half, run);
      RunsFollow(half, run);
      StillOn([s], half, run);
    }
    StillMeans([s], run);
    var t := Last(run);
    s' := t.(backups := t.backups[a := WithSnap(walking, walking.capture.snap - {key}, true)]);
  }

  /**
   So from every first state, without any request, a backup ends in an archive that claims to be the
   whole tree and lacks a file: a cleanup took it out of the snapshot, whoever ran it and however much
   of the tree had been linked.
   */
  lemma CleanupLosesAFile(s: State, a: BackupId, before: set<Key>, key: Key, cleaner: Option<BackupId>)
    returns (run: seq<State>, s': State, longer: seq<State>, archive: Finished)
    requires Init(s) && before <= s.files.Keys && key in before && cleaner != Some(a)
    ensures Run(run) && Next(Last(run), Unlink(cleaner, a, key), s') && Still([s], run) && Alike(s', s)
    ensures Still(run + [s'], longer) && archive in Last(longer).archives
    ensures archive.objects == Tree(s) - {key} && archive.refused == {} && !archive.degraded
    ensures forall i: nat :: !TakenAt(longer, i, archive)
  {
    hide Run, Still, Contents, Next;
    run, s' := CleanupReachesAWalk(s, a, before, key, cleaner);
    UnlinkMeans(Last(run), cleaner, a, key, s');
    longer, archive := UnlinkLosesAFile(run, Unlink(cleaner, a, key), s');
    StillShows(s, run);
    StillMeans(run + [s'], longer);
    ExtendedShows(s, run, s', longer);
    forall i: nat | i < |longer| ensures Tree(longer[i]) - {} != archive.objects {
      assert key in Tree(longer[i]);
    }
  }

  lemma UnlinkMeans(s: State, cleaner: Option<BackupId>, b: BackupId, key: Key, s': State)
    requires Next(s, Unlink(cleaner, b, key), s') && !Guarded(s, Unlink(cleaner, b, key))
    ensures b in s.backups && s.backups[b].Walking?
  {
  }

  lemma StillShows(s: State, run: seq<State>)
    requires Still([s], run)
    ensures forall i :: 0 <= i < |run| ==> Alike(run[i], s)
  {
  }

  lemma ExtendedShows(s: State, run: seq<State>, s': State, longer: seq<State>)
    requires Alike(s', s) && Still(run + [s'], longer) && forall i :: 0 <= i < |run| ==> Alike(run[i], s)
    ensures forall i :: 0 <= i < |longer| ==> Alike(longer[i], s)
  {
    assert Last(run + [s']) == s';
    forall i | 0 <= i <= |run| ensures longer[i] == (run + [s'])[i] {
    }
  }
}
