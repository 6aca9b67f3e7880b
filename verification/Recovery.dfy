/**
 Engine.Restore from the archive to the live installation (internal/backup/engine.go:435-520), and
 what the backup of a running installation is worth: whatever the requests did meanwhile, restoring
 it brings back one state the installation was in.
 */
module Recovery {

  import opened Archives
  import opened Manifests
  import opened ObjectKeys
  import opened Staging
  import opened Storage
  import opened StorageRoot
  import opened Wrappers
  import ArchiveWriter
  import Cluster
  import DatabaseNames
  import RestoreEngine
  import WriteBarrier

  /** What the code cannot see: chosen names, and what fails. */
  datatype Surroundings = Surroundings(
    gate: bool,                      // a newer schema, another master key, too little room
    failing: set<string>,            // keys whose file cannot be written
    leftovers: map<string, Entry>,   // what a failing RemoveAll leaves behind
    stage: string, retired: string,  // fresh temporary names
    stamp: string,
    faults: RestoreEngine.Faults)

  predicate FreshNames(root: Listing, w: Surroundings) {
    STAGE_PREFIX <= w.stage && w.stage !in root && Retired(w.retired) && w.retired !in root
  }

  predicate FaultFree(f: RestoreEngine.Faults) {
    && !f.connect && f.create.Clear? && f.load.Written? && !f.prepare && !f.health
    && f.prepared.Written? && f.switching.Written? && f.switched.Written? && f.committed.Written?
    && f.swap == RestoreEngine.NO_FAULTS
    && !f.storage.mkdir && !f.storage.listLive && !f.storage.listStage
    && f.storage.asideFailsAt < 0 && f.storage.landingFailsAt < 0
  }

  /** The generated names are free. */
  predicate NamesFree(databases: map<string, Cluster.Database>, live: string, stamp: string) {
    DatabaseNames.CandidateName(live, stamp) !in databases && DatabaseNames.RetiredName(live, stamp) !in databases
  }

  ghost predicate Accepted(h: Digest, decode: Decoder, a: Archive, hasRoot: bool, w: Surroundings) {
    !w.gate && exists m :: Restorable(h, decode, a, m, hasRoot) && (hasRoot ==> Keys(m.objects) !! w.failing)
  }

  /** The installation serves this content and these files, or the files it served before. */
  ghost predicate Serves(v: RestoreEngine.View, was: RestoreEngine.View, content: Cluster.Content,
                         files: Option<map<string, Bytes>>) {
    && v.database.Some? && v.database.value.content == content && !v.database.value.sealed
    && if files.Some? then Shows(v.files, files.value) else v.files == was.files
  }

  /** Nothing that existed is lost. */
  ghost predicate Preserves(before: map<string, Cluster.Database>, after: map<string, Cluster.Database>,
                            livedBefore: map<nat, Cluster.Content>, livedAfter: map<nat, Cluster.Content>) {
    RestoreEngine.AllKept(before, after) && RestoreEngine.Remembers(livedBefore, livedAfter)
  }

  lemma KeptPreserves(databases: map<string, Cluster.Database>, lived: map<nat, Cluster.Content>,
                      v: RestoreEngine.View)
    ensures Preserves(databases, databases, lived, lived)
  {
    RestoreEngine.NothingChanges(databases, v);
  }

  /** The files of an accepted section make one directory tree. */
  lemma SectionNests(h: Digest, m: Manifest, files: map<string, Bytes>)
    requires ManifestOk(m) && Matches(h, files, m.objects)
    ensures Nestable(files)
  {
    hide ValidKey, PrefixFree;
    KeysAreValid(m.objects);
  }

  lemma FaultFreeSwitches(live: string, journaling: bool, stamp: string, f: RestoreEngine.Faults,
                          databases: map<string, Cluster.Database>, root: Listing, stage: string)
    requires FaultFree(f) && NamesFree(databases, live, stamp)
    ensures RestoreEngine.SwitchesAfterCreate(live, journaling, stamp, f, databases)
    ensures Completes(root, stage, f.storage)
  {
  }

  /** The rest of Restore, for an installation without a storage root or with the files in their staging directory. */
  method RestoreDatabase(engine: RestoreEngine.Engine, content: Cluster.Content, stage: string, w: Surroundings)
    returns (r: RestoreEngine.Result)
    requires engine.Valid() && engine.journal == [] && engine.Prepares(w.stamp)
    requires stage != "" ==> Swappable(engine.root.entries, stage, w.retired)
    modifies engine, engine.root, engine.catalog
    ensures engine.Valid()
    ensures Preserves(old(engine.catalog.databases), engine.catalog.databases,
                      old(engine.catalog.lived), engine.catalog.lived)
    ensures r.Restored? ==>
              && engine.LiveView().database == Some(Cluster.Database(old(engine.catalog.nextOid), content, false))
              && Visible(engine.root.entries) == RestoreEngine.Staged(old(engine.root.entries), stage)
    ensures OthersKept(old(engine.root.entries), {stage, w.retired}, engine.root.entries)
    ensures FaultFree(w.faults) && NamesFree(old(engine.catalog.databases), engine.catalog.live, w.stamp) ==>
              r.Restored?
  {
    hide Swappable, Visible, Completes, RestoreEngine.AllKept, RestoreEngine.Remembers, RestoreEngine.Slips,
      RestoreEngine.SameInstallation, RestoreEngine.SwitchesAfterCreate, RestoreEngine.Staged;
    if FaultFree(w.faults) && NamesFree(engine.catalog.databases, engine.catalog.live, w.stamp) {
      FaultFreeSwitches(engine.catalog.live, engine.journaling, w.stamp, w.faults, engine.catalog.databases,
                        engine.root.entries, stage);
    }
    r := engine.RestoreViaCandidate(content, w.stamp, stage, w.retired, w.faults);
  }

  /** With a storage root: the files are staged beside the live ones, and the stage is removed at the end. */
  method RestoreWithFiles(engine: RestoreEngine.Engine, content: Cluster.Content, files: map<string, Bytes>,
                          w: Surroundings)
    returns (r: RestoreEngine.Result)
    requires engine.Valid() && engine.journal == [] && engine.Prepares(w.stamp) && FreshNames(engine.root.entries, w)
    requires Nestable(files)
    modifies engine, engine.root, engine.catalog
    ensures engine.Valid()
    ensures Preserves(old(engine.catalog.databases), engine.catalog.databases,
                      old(engine.catalog.lived), engine.catalog.lived)
    ensures r.Restored? ==> Serves(engine.LiveView(), old(engine.LiveView()), content, Some(files))
    ensures ScratchGone(old(engine.root.entries), engine.root.entries, w)
    ensures FaultFree(w.faults) && NamesFree(old(engine.catalog.databases), engine.catalog.live, w.stamp) ==>
              r.Restored?
  {
    hide Swappable, Visible, Preserves, Cluster.NothingLost, Cluster.WellNumbered, Nest, Shows, FaultFree, NamesFree,
      RetiredKept, Nestable, RestoreEngine.Engine.Prepares;
    StageIsScratch(w.stage);
    engine.root.MakeScratch(w.stage, Nest(files));
    StagedIsSwappable(engine.root.entries, w.stage, w.retired, files);
    NestShows(files);
    r := RestoreDatabase(engine, content, w.stage, w);
    ghost var restored := engine.root.entries;
    engine.root.DropScratch(w.stage, w.leftovers);
    ScratchIsGone(old(engine.root.entries), restored, engine.root.entries, w, Dir(Nest(files)));
  }

  /**
   What a restore leaves beside the live entries: its stage only if it could not be removed, and every
   other working directory as it was; so a retired directory an earlier crash left is still there.
   */
  ghost predicate ScratchGone(before: Listing, after: Listing, w: Surroundings) {
    && (w.stage in after ==> w.stage in w.leftovers)
    && OthersKept(before, {w.stage, w.retired}, after) && RetiredKept(before, after)
  }

  lemma ScratchIsGone(before: Listing, restored: Listing, after: Listing, w: Surroundings, staged: Entry)
    requires FreshNames(before, w) && OthersKept(before[w.stage := staged], {w.stage, w.retired}, restored)
    requires after == Removed(restored, w.stage, w.leftovers)
    ensures ScratchGone(before, after, w)
  {
    StageIsScratch(w.stage);
    forall n | n in before && Retired(n) ensures n in after && after[n] == before[n] {
      PrefixKinds(n);
    }
  }

  lemma StageIsScratch(stage: string)
    requires STAGE_PREFIX <= stage
    ensures Scratch(stage) && stage != "" && !Retired(stage)
  {
    PrefixKinds(stage);
  }

  ghost function FilesOf(a: Archive, hasRoot: bool): Option<map<string, Bytes>> {
    if hasRoot && |a.entries| >= 2 then Some(Contents(a.entries[2..])) else None
  }

  /**
   Restore into a candidate database; `load` is what pg_restore and the migrations make of a dump.
   An archive that is not accepted touches nothing that serves traffic; one that is restored brings
   its dump and, with a storage root, exactly its files.
   */
  method Restore(engine: RestoreEngine.Engine, h: Digest, decode: Decoder, load: Bytes -> Cluster.Content, a: Archive,
                 hasRoot: bool, w: Surroundings)
    returns (r: RestoreEngine.Result)
    requires engine.Valid() && engine.journal == [] && engine.Prepares(w.stamp) && FreshNames(engine.root.entries, w)
    modifies engine, engine.root, engine.catalog
    ensures engine.Valid()
    ensures Preserves(old(engine.catalog.databases), engine.catalog.databases,
                      old(engine.catalog.lived), engine.catalog.lived)
    ensures !Accepted(h, decode, a, hasRoot, w) ==>
              r == RestoreEngine.Failed(false) && engine.LiveView() == old(engine.LiveView())
    ensures r.Restored? ==>
              && |a.entries| >= 2
              && Serves(engine.LiveView(), old(engine.LiveView()), load(a.entries[1].body), FilesOf(a, hasRoot))
    // once it reaches the storage root, no snapshot or stage of this or an earlier run is left that can be removed
    ensures hasRoot && !w.gate && (exists m :: ManifestEntryOk(decode, a, m) && DumpEntryOk(h, a, m)) ==>
              forall n :: n in engine.root.entries && Scratch(n) ==> n in w.leftovers
    ensures RetiredKept(old(engine.root.entries), engine.root.entries)
    ensures Accepted(h, decode, a, hasRoot, w) && FaultFree(w.faults) ==>
              NamesFree(old(engine.catalog.databases), engine.catalog.live, w.stamp) ==> r.Restored?
  {
    hide Visible, Preserves, Cluster.NothingLost, Cluster.WellNumbered, Shows, FaultFree, NamesFree,
      Nestable, ManifestOk, SectionOk, Contents, RestoreEngine.Engine.Prepares;
    KeptPreserves(engine.catalog.databases, engine.catalog.lived, engine.LiveView());
    if w.gate {
      return RestoreEngine.Failed(false);
    }
    var read := Open(h, decode, a, hasRoot);
    if read.Err? {
      return RestoreEngine.Failed(false);
    }
    var content := load(a.entries[1].body);
    if !hasRoot {
      ghost var was := engine.root.entries;
      r := RestoreDatabase(engine, content, "", w);
      OthersAreRetired(was, engine.root.entries, "", w);
      return;
    }
    engine.root.CleanupInternalDirs(w.leftovers);
    ghost var clean := engine.root.entries;
    var files := Stage(h, a, read.value, w.failing);
    if files.Err? {
      StageIsScratch(w.stage);
      engine.root.MakeScratch(w.stage, map[]);
      engine.root.DropScratch(w.stage, w.leftovers);
      return RestoreEngine.Failed(false);
    }
    SectionNests(h, read.value, files.value);
    r := RestoreWithFiles(engine, content, files.value, w);
    NoScratchLeft(clean, engine.root.entries, w);
  }

  lemma OthersAreRetired(before: Listing, after: Listing, stage: string, w: Surroundings)
    requires FreshNames(before, w) && OthersKept(before, {stage, w.retired}, after) && !Retired(stage)
    ensures RetiredKept(before, after)
  {
    forall n | n in before && Retired(n) ensures n in after && after[n] == before[n] {
      PrefixKinds(n);
    }
  }

  lemma NoScratchLeft(clean: Listing, after: Listing, w: Surroundings)
    requires FreshNames(clean, w) && ScratchGone(clean, after, w)
    requires forall n :: n in clean && Scratch(n) ==> n in w.leftovers
    ensures forall n :: n in after && Scratch(n) ==> n in w.leftovers
  {
    forall n | n in after && Scratch(n) ensures n in w.leftovers {
      PrefixKinds(n);
    }
  }

  // ----- a backup of a running installation

  /** Loading a dump gives back the rows it was taken from. */
  ghost predicate Loads(dump: WriteBarrier.Database -> Bytes, load: Bytes -> Cluster.Content) {
    forall d :: load(dump(d)) == d.rows
  }

  /** The installation is back where the run was in its i-th state, less the files that could not be read. */
  ghost predicate BackAt(run: seq<WriteBarrier.State>, i: nat, a: WriteBarrier.Finished, v: RestoreEngine.View) {
    && WriteBarrier.TakenAt(run, i, a)
    && v.database.Some? && v.database.value.content == run[i].db.rows && !v.database.value.sealed
    && Shows(v.files, WriteBarrier.Tree(run[i]) - a.refused)
  }

  /** Nothing is in the way of restoring what this backup wrote. */
  ghost predicate Recoverable(h: Digest, encode: Encoder, a: WriteBarrier.Finished, bytes: Bytes, order: seq<string>,
                              rest: string, w: Surroundings)
    requires ArchiveWriter.Lists(order, a.objects)
  {
    && ArchiveWriter.ValidKeys(a.objects) && ArchiveWriter.Utf8Keys(a.objects)
    && ArchiveWriter.WithinCaps(encode, ArchiveWriter.ManifestOf(h, bytes, a.objects, order, rest))
    && !w.gate && a.objects.Keys !! w.failing
  }

  /** An archive as Create writes it is accepted exactly when nothing is in its way. */
  lemma WrittenIsAccepted(h: Digest, encode: Encoder, decode: Decoder, bytes: Bytes, files: map<string, Bytes>,
                          order: seq<string>, rest: string, w: Surroundings)
    requires HexDigest(h) && IsJson(encode, decode) && ArchiveWriter.Lists(order, files) && PrefixFree(files.Keys)
    requires ArchiveWriter.ValidKeys(files)
    ensures var m := ArchiveWriter.ManifestOf(h, bytes, files, order, rest);
            var a := ArchiveWriter.ArchiveOf(encode, m, bytes, ArchiveWriter.Section(files, order));
            && (Accepted(h, decode, a, true, w) <==>
                ArchiveWriter.WithinCaps(encode, m) && ArchiveWriter.Utf8Keys(files)
                && !w.gate && files.Keys !! w.failing)
            && |a.entries| >= 2 && a.entries[1].body == bytes && FilesOf(a, true) == Some(files)
  {
    hide Genuine, Restorable, Contents, ArchiveWriter.ManifestOf, ArchiveWriter.Section, PrefixFree,
      ArchiveWriter.ValidKeys, ArchiveWriter.Utf8Keys, ArchiveWriter.WithinCaps, Rewritten;
    ArchiveWriter.WrittenIsGenuine(h, encode, decode, bytes, files, files, order, rest);
    var m := ArchiveWriter.ManifestOf(h, bytes, files, order, rest);
    var a := ArchiveWriter.ArchiveOf(encode, m, bytes, ArchiveWriter.Section(files, order));
    ArchiveWriter.RootedIsGenuine(h, decode, a);
    assert (map key | key in files :: files[key]) == files;
  }

  /**
   From end to end. Take any guarded run of requests, backups and cleanups, and any backup that
   finished in it. Restoring its archive, on whatever installation, ends with the
   rows and the files of the quiet instant it pinned being served, and with no database lost; and
   it does so unless something fails or the archive is one the reader refuses.
   */
  method BackUpAndRecover(run: seq<WriteBarrier.State>, a: WriteBarrier.Finished, engine: RestoreEngine.Engine,
                          h: Digest, encode: Encoder, decode: Decoder, dump: WriteBarrier.Database -> Bytes,
                          load: Bytes -> Cluster.Content, order: seq<string>, rest: string, w: Surroundings)
    returns (r: RestoreEngine.Result)
    requires WriteBarrier.Run(run) && a in run[|run| - 1].archives && PrefixFree(a.objects.Keys)
    requires HexDigest(h) && IsJson(encode, decode) && Loads(dump, load) && ArchiveWriter.Lists(order, a.objects)
    requires engine.Valid() && engine.journal == [] && engine.Prepares(w.stamp) && FreshNames(engine.root.entries, w)
    modifies engine, engine.root, engine.catalog
    ensures engine.Valid()
    ensures Preserves(old(engine.catalog.databases), engine.catalog.databases,
                      old(engine.catalog.lived), engine.catalog.lived)
    ensures r.Restored? ==> BackAt(run, a.at, a, engine.LiveView())
    ensures !Recoverable(h, encode, a, dump(a.dump), order, rest, w) ==> engine.LiveView() == old(engine.LiveView())
    ensures Recoverable(h, encode, a, dump(a.dump), order, rest, w) && FaultFree(w.faults) ==>
              NamesFree(old(engine.catalog.databases), engine.catalog.live, w.stamp) ==> r.Restored?
  {
    hide WriteBarrier.Run, WriteBarrier.Tree, ArchiveWriter.ManifestOf, ArchiveWriter.Section, ArchiveWriter.Lists,
      ArchiveWriter.ValidKeys, ArchiveWriter.Utf8Keys, ArchiveWriter.WithinCaps, PrefixFree, Shows, Accepted, FilesOf,
      Preserves, FaultFree, NamesFree, FreshNames, Visible, Cluster.NothingLost, Cluster.WellNumbered,
      RestoreEngine.Engine.Prepares, ArchiveWriter.ArchiveOf;
    WriteBarrier.ArchivesDescribeOneInstant(run, a);
    KeptPreserves(engine.catalog.databases, engine.catalog.lived, engine.LiveView());
    var created := ArchiveWriter.Create(h, encode, dump(a.dump), a.objects, a.files, order, rest, false);
    if created.Err? {
      return RestoreEngine.Failed(false);
    }
    WrittenIsAccepted(h, encode, decode, dump(a.dump), a.objects, order, rest, w);
    r := Restore(engine, h, decode, load, created.value.archive, true, w);
  }
}
