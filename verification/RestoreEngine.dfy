/**
 The two restore modes of internal/backup/engine.go (restoreViaCandidate, restoreInPlace)
 over the catalog of the cluster, the storage root and the journal of the operation.
 Every statement, journal write and rename may fail.
 */
module RestoreEngine {
  import opened DatabaseNames
  import opened Cluster
  import StorageRoot
  import opened Wrappers

  datatype Phase = Prepared | Switching | Switched | Committed

  const PHASES: seq<Phase> := [Prepared, Switching, Switched, Committed]

  /** A journal write or a load succeeds, is lost, or takes effect and still reports an error. */
  datatype Write = Written | Lost | WrittenWithError

  /** The part of the installation that serves traffic. */
  datatype View = View(database: Option<Database>, files: StorageRoot.Listing)

  datatype Faults = Faults(
    connect: bool,              // maintenance connection or the CREATEDB test
    create: Fault,              // CREATE DATABASE
    load: Write,                // pg_restore, which is all or nothing
    prepare: bool,              // migrations, application role, its login
    prepared: Write, switching: Write, switched: Write, committed: Write,
    swap: SwapFaults,
    appRole: bool,              // in place only
    storage: StorageRoot.Faults,
    health: bool,               // verifyLive
    drop: Fault)

  /** `inconsistent` is whether the error wraps ErrSystemInconsistent. */
  datatype Result = Restored | Failed(inconsistent: bool)

  function ViewOf(databases: map<string, Database>, live: string, files: StorageRoot.Listing): View {
    View(if live in databases then Some(databases[live]) else None, files)
  }

  /** The files a restore brings: the staged tree, or the present one when nothing is staged. */
  function Staged(entries: StorageRoot.Listing, stage: string): StorageRoot.Listing {
    if stage == "" then StorageRoot.Visible(entries) else StorageRoot.Children(entries, stage)
  }

  /** Every database of the first catalog is in the second one, with its content. */
  ghost predicate AllKept(before: map<string, Database>, after: map<string, Database>) {
    forall n :: n in before ==> Somewhere(before[n], after)
  }

  ghost predicate Somewhere(d: Database, databases: map<string, Database>) {
    exists m :: m in databases && SameContent(d, databases[m])
  }

  ghost predicate Remembers(before: map<nat, Content>, after: map<nat, Content>) {
    forall oid :: oid in before ==> oid in after && after[oid] == before[oid]
  }

  /** The same live database with the same content, and the same files. */
  ghost predicate SameInstallation(v: View, w: View) {
    && v.files == w.files && v.database.Some? == w.database.Some?
    && (v.database.Some? ==> SameContent(v.database.value, w.database.value))
  }

  function Loaded(databases: map<string, Database>, name: string, content: Content): map<string, Database>
    requires name in databases
  {
    databases[name := databases[name].(content := content)]
  }

  /** A restore that fails before the swap has touched nothing but its candidate. */
  ghost predicate NotReached(before: map<string, Database>, after: map<string, Database>, candidate: string,
                             reached: Option<End>) {
    reached.None? ==>
      && candidate in before && candidate in after && before[candidate].oid == after[candidate].oid
      && before - {candidate} == after - {candidate}
  }

  /** What each end of the swap means for the databases that were there before the candidate. */
  lemma SwapEndsWell(before: map<string, Database>, loaded: map<string, Database>, after: map<string, Database>,
                     live: string, candidate: string, retired: string, f: SwapFaults, end: End)
    requires candidate !in before && candidate in loaded && loaded - {candidate} == before
    requires candidate != live && candidate != retired
    requires end == SwapEnd(loaded, live, candidate, retired, f)
    requires SwapLeaves(loaded, after, live, candidate, retired, f, end)
    ensures end.Kept? ==>
              (live in after <==> live in before) && (live in before ==> SameContent(before[live], after[live]))
    ensures end.Stranded? ==> live in before && live !in after
    ensures end.Replaced? ==> candidate !in after && live in after && SameContent(loaded[candidate], after[live])
    ensures !end.Replaced? ==> candidate in after && after[candidate] == loaded[candidate]
    ensures end == EndOf(before, live, true, retired, f)
  {
    assert live in before ==> live in loaded && loaded[live] == before[live];
    assert live in loaded ==> live in before;
    assert retired in loaded ==> retired in before;
    assert retired in before ==> retired in loaded;
  }

  lemma SwapKeepsAll(before: map<string, Database>, loaded: map<string, Database>, after: map<string, Database>,
                     live: string, candidate: string, retired: string, f: SwapFaults, end: End)
    requires candidate !in before && candidate in loaded && loaded - {candidate} == before
    requires candidate != live && candidate != retired
    requires end == SwapEnd(loaded, live, candidate, retired, f)
    requires SwapLeaves(loaded, after, live, candidate, retired, f, end)
    ensures AllKept(before, after) && AllKept(before, after - {candidate})
  {
    hide SwapLeaves, SwapEnd;
    forall n | n in before ensures Somewhere(before[n], after) && Somewhere(before[n], after - {candidate}) {
      var m := if n == live && !end.Kept? then retired else n;
      assert n in loaded && loaded[n] == before[n];
      Stays(before, loaded, after, live, candidate, retired, f, end, n);
      assert m in after && m in after - {candidate};
    }
  }

  /** How the catalog and its memory stand when the candidate was switched in, or not. */
  ghost predicate Ended(created: map<string, Database>, after: map<string, Database>, live: string, candidate: string,
                        content: Content, lived: map<nat, Content>, lived': map<nat, Content>, reached: Option<End>) {
    && candidate in created && NotReached(created, after, candidate, reached)
    && (reached == Some(Kept) ==>
          (live in after <==> live in created) && (live in created ==> SameContent(created[live], after[live])))
    && (reached == Some(Stranded) ==> live in created && live !in after)
    && (reached == Some(Replaced) ==>
          live in after && after[live].oid == created[candidate].oid && after[live].content == content)
    && lived' == if reached == Some(Replaced) then lived[created[candidate].oid := content] else lived
  }

  /** The candidate as it was made: loaded, unless the load failed. */
  ghost function Made(oid: nat, content: Content, f: Faults): Database {
    Database(oid, if f.load.Lost? then map[] else content, false)
  }

  /**
   The whole catalog after a restore that created its candidate. Unless the swap has replaced the live
   database the candidate is dropped again, and is there only if that fails.
   */
  ghost function Leaves(before: map<string, Database>, live: string, candidate: string, retired: string,
                        made: Database, f: Faults, reached: Option<End>): map<string, Database> {
    var scratch := if f.drop.Fails? then map[candidate := made] else map[];
    var aside := if live in before then (before - {live})[retired := Sealing(before[live], true)] else before;
    match reached
    case None => before + scratch
    case Some(Kept) =>
      if live in before
      then before[live := Sealing(before[live], KeptSealed(before[live].sealed, retired in before, f.swap))] + scratch
      else before + scratch
    case Some(Stranded) => aside + scratch
    case Some(Replaced) => aside[live := made]
  }

  /** The whole catalog after a restore: nothing but a candidate can be left behind where no swap was reached. */
  ghost function RestoreLeaves(before: map<string, Database>, live: string, journaling: bool, oid: nat,
                               content: Content, stamp: string, f: Faults): map<string, Database> {
    var candidate, retired := CandidateName(live, stamp), RetiredName(live, stamp);
    if f.connect || f.create.Fails? || candidate in before then before
    else if f.create.Unheard? then before[candidate := Database(oid, map[], false)]
    else Leaves(before, live, candidate, retired, Made(oid, content, f), f,
                SwapReached(before, live, journaling, retired, f))
  }

  lemma CatalogLeft(before: map<string, Database>, created: map<string, Database>, after: map<string, Database>,
                    final: map<string, Database>, live: string, candidate: string, retired: string, content: Content,
                  f: Faults, reached: Option<End>)
    requires candidate !in before && candidate in created && created - {candidate} == before
    requires candidate != live && candidate != retired
    requires created[candidate] == Database(created[candidate].oid, map[], false)
    requires reached.None? ==> after == if f.load.Lost? then created else Loaded(created, candidate, content)
    requires reached.Some? ==>
               && !f.load.Lost?
               && SwapLeaves(Loaded(created, candidate, content), after, live, candidate, retired, f.swap,
                             reached.value)
    requires || final == (if f.drop.Fails? then after else after - {candidate})
             || (reached == Some(Replaced) && final == after)
    ensures final == Leaves(before, live, candidate, retired, Made(created[candidate].oid, content, f), f, reached)
    ensures !f.drop.Fails? ==> candidate !in final
  {
    hide SwapLeaves, KeptSealed;
    var made := Made(created[candidate].oid, content, f);
    var loaded := before[candidate := made];
    assert created == before[candidate := created[candidate]];
    if reached.None? {
      assert after == loaded;
      assert final == before + if f.drop.Fails? then map[candidate := made] else map[];
    } else {
      assert Loaded(created, candidate, content) == loaded;
      if reached.value.Replaced? {
        ReplacedLeaves(before, after, live, candidate, retired, made, f.swap);
        assert after - {candidate} == after;
      } else {
        OtherwiseLeaves(before, after, live, candidate, retired, made, f, reached.value);
      }
    }
  }

  lemma ReplacedLeaves(before: map<string, Database>, after: map<string, Database>, live: string, candidate: string,
                       retired: string, made: Database, f: SwapFaults)
    requires candidate !in before && candidate != live && candidate != retired && !made.sealed
    requires SwapLeaves(before[candidate := made], after, live, candidate, retired, f, Replaced)
    ensures candidate !in after
    ensures after == (if live in before then (before - {live})[retired := Sealing(before[live], true)] else before)
                     [live := made]
  {
    assert Sealing(made, false) == made;
  }

  lemma OtherwiseLeaves(before: map<string, Database>, after: map<string, Database>, live: string, candidate: string,
                        retired: string, made: Database, f: Faults, end: End)
    requires candidate !in before && candidate != live && candidate != retired && !end.Replaced?
    requires SwapLeaves(before[candidate := made], after, live, candidate, retired, f.swap, end)
    ensures (if f.drop.Fails? then after else after - {candidate})
            == Leaves(before, live, candidate, retired, made, f, Some(end))
    ensures !f.drop.Fails? ==>
              candidate !in Leaves(before, live, candidate, retired, made, f, Some(end))
  {
    hide KeptSealed;
    assert live in before[candidate := made] <==> live in before;
    assert retired in before[candidate := made] <==> retired in before;
  }

  /** Every end is one of these, and no database that was there before is lost in any. */
  lemma EndsWell(before: map<string, Database>, created: map<string, Database>, after: map<string, Database>,
                 live: string, candidate: string, retired: string, content: Content, f: SwapFaults,
                 lived: map<nat, Content>, lived': map<nat, Content>, reached: Option<End>)
    requires candidate !in before && candidate in created && created - {candidate} == before
    requires candidate != live && candidate != retired && created[candidate].oid !in lived
    requires NotReached(created, after, candidate, reached) && (reached.None? ==> lived' == lived)
    requires reached.Some? ==>
               var loaded := Loaded(created, candidate, content);
               && reached.value == SwapEnd(loaded, live, candidate, retired, f)
               && SwapLeaves(loaded, after, live, candidate, retired, f, reached.value)
               && lived' == if reached.value.Replaced? then LivedAfter(lived, live, live, loaded[candidate]) else lived
    ensures Ended(created, after, live, candidate, content, lived, lived', reached)
    ensures AllKept(before, after) && AllKept(before, after - {candidate}) && Remembers(lived, lived')
    ensures reached.Some? ==> reached.value == EndOf(before, live, true, retired, f)
    ensures candidate in after ==> after[candidate].oid !in lived'
  {
    hide SwapLeaves, SwapEnd, AllKept, EndOf;
    var loaded := Loaded(created, candidate, content);
    assert loaded - {candidate} == before;
    RemembersAll(lived, live, loaded[candidate]);
    if reached.None? {
      NotReachedEndsWell(before, created, after, candidate);
    } else {
      SwapEndsWell(before, loaded, after, live, candidate, retired, f, reached.value);
      SwapKeepsAll(before, loaded, after, live, candidate, retired, f, reached.value);
      assert live in before <==> live in created - {candidate};
      assert live in before ==> created[live] == before[live];
    }
  }

  /** The installation serves what it served before exactly when the swap kept it or was not reached. */
  lemma WhatIsServed(created: map<string, Database>, after: map<string, Database>, final: map<string, Database>,
                     live: string, candidate: string, content: Content, lived: map<nat, Content>,
                     lived': map<nat, Content>, files: StorageRoot.Listing, reached: Option<End>)
    requires Ended(created, after, live, candidate, content, lived, lived', reached)
    requires candidate != live && (final == after || final == after - {candidate})
    requires forall n :: n in created && n != candidate ==> created[n].oid != created[candidate].oid
    ensures SameInstallation(ViewOf(final, live, files), ViewOf(created, live, files))
            <==> reached != Some(Replaced) && reached != Some(Stranded)
    ensures reached.None? ==> ViewOf(final, live, files) == ViewOf(created, live, files)
    ensures reached == Some(Replaced) ==>
              live in final && final[live].oid == created[candidate].oid && final[live].content == content
    ensures LiveMoves(ViewOf(created, live, files).database, lived, ViewOf(final, live, files).database, lived',
                      created[candidate].oid, content)
  {
    assert live in created - {candidate} <==> live in created;
    assert live in after - {candidate} <==> live in after;
    assert live in final <==> live in after;
    assert live in after ==> final[live] == after[live];
    match reached
    case None =>
      assert live in created ==> (after - {candidate})[live] == (created - {candidate})[live] == created[live];
    case Some(Kept) =>
    case Some(Stranded) =>
    case Some(Replaced) =>
  }

  /** Both renames answered: the swap has gone through. A swap that kept the live database never slips. */
  lemma ClearEnd(databases: map<string, Database>, live: string, retired: string, w: Wording, f: SwapFaults)
    ensures var end := EndOf(databases, live, true, retired, f);
            && (f.land.Clear? ==> (end.Replaced? <==> !AsideFails(databases, live, retired, f)))
            && (end.Replaced? ==> !AsideFails(databases, live, retired, f))
            && (SwapSlips(w, live in databases, live, retired, f, end) ==>
                  !end.Kept? && !(end.Replaced? && f.land.Clear? && f.open.Clear?))
  {
  }

  lemma RemembersAll(lived: map<nat, Content>, live: string, moved: Database)
    requires moved.oid !in lived
    ensures Remembers(lived, lived) && Remembers(lived, LivedAfter(lived, live, live, moved))
  {
  }

  lemma ParsedIsLonger(name: string, live: string)
    requires ParseRetiredStamp(name, live).Some?
    ensures name != live
  {
  }

  /** A promotion loses nothing either: each database stays, or moves to the live or the retired name. */
  lemma PromotionKeepsAll(before: map<string, Database>, after: map<string, Database>,
                          live: string, name: string, retired: string, f: SwapFaults, end: End)
    requires name in before && name != live
    requires end == SwapEnd(before, live, name, retired, f)
    requires SwapLeaves(before, after, live, name, retired, f, end)
    ensures AllKept(before, after)
    ensures end == EndOf(before, live, true, retired, f)
    ensures end.Replaced? ==> live in after && SameContent(before[name], after[live])
    ensures end.Stranded? ==> live !in after
    ensures end.Kept? ==>
              (live in after <==> live in before) && (live in before ==> SameContent(before[live], after[live]))
  {
    forall n | n in before ensures Somewhere(before[n], after) {
      var m := if n == live && !end.Kept? then retired else if n == name && end.Replaced? then live else n;
      PromotionMoves(before, after, live, name, retired, f, end, n);
      assert m in after && SameContent(before[n], after[m]);
    }
  }

  lemma PromotionMoves(before: map<string, Database>, after: map<string, Database>,
                       live: string, name: string, retired: string, f: SwapFaults, end: End, n: string)
    requires name in before && name != live && n in before
    requires end == SwapEnd(before, live, name, retired, f)
    requires SwapLeaves(before, after, live, name, retired, f, end)
    ensures var m := if n == live && !end.Kept? then retired else if n == name && end.Replaced? then live else n;
            m in after && SameContent(before[n], after[m])
  {
    match end
    case Kept =>
    case Stranded =>
    case Replaced =>
      if live in before {
        assert n != retired && name != retired;
      }
  }

  lemma NotReachedEndsWell(before: map<string, Database>, created: map<string, Database>, after: map<string, Database>,
                           candidate: string)
    requires candidate !in before && created - {candidate} == before && NotReached(created, after, candidate, None)
    ensures candidate in created && candidate in after && after[candidate].oid == created[candidate].oid
    ensures AllKept(before, after) && AllKept(before, after - {candidate})
  {
    assert after - {candidate} == before;
    forall n | n in before ensures Somewhere(before[n], after) && Somewhere(before[n], after - {candidate}) {
      assert n in before;
      assert (after - {candidate})[n] == before[n] && after[n] == before[n];
    }
  }

  /** Where a database that was there before is found after the swap. */
  lemma Stays(before: map<string, Database>, loaded: map<string, Database>, after: map<string, Database>,
              live: string, candidate: string, retired: string, f: SwapFaults, end: End, n: string)
    requires n in before && n != candidate && n in loaded && loaded[n] == before[n] && candidate in loaded
    requires candidate != live && candidate != retired
    requires end == SwapEnd(loaded, live, candidate, retired, f)
    requires SwapLeaves(loaded, after, live, candidate, retired, f, end)
    ensures var m := if n == live && !end.Kept? then retired else n;
            m != candidate && m in after && SameContent(before[n], after[m])
  {
    match end
    case Kept =>
    case Stranded =>
    case Replaced =>
      if live in loaded {
        assert n != retired;
      }
  }

  lemma NothingChanges(databases: map<string, Database>, v: View)
    ensures AllKept(databases, databases) && SameInstallation(v, v)
  {
    forall n | n in databases ensures Somewhere(databases[n], databases) {
      assert SameContent(databases[n], databases[n]);
    }
  }

  lemma AddedKeeps(before: map<string, Database>, after: map<string, Database>)
    requires forall n :: n in before ==> n in after && after[n] == before[n]
    ensures AllKept(before, after)
  {
    forall n | n in before ensures Somewhere(before[n], after) {
      assert SameContent(before[n], after[n]);
    }
  }

  lemma FreshOid(databases: map<string, Database>, nextOid: nat, place: map<nat, string>, lived: map<nat, Content>,
                 live: string, retired: iset<string>)
    requires WellNumbered(databases, nextOid, place) && NothingLost(databases, live, retired, place, lived)
    ensures nextOid !in lived && forall n :: n in databases ==> databases[n].oid != nextOid
  {
  }

  /** The candidate is built and the intent to switch is recorded. */
  predicate ReachesSwap(journaling: bool, f: Faults) {
    f.load.Written? && !f.prepare && (journaling ==> f.prepared.Written? && f.switching.Written?)
  }

  /** How the swap ends, if it is reached. */
  ghost function SwapReached(before: map<string, Database>, live: string, journaling: bool, retired: string, f: Faults)
    : Option<End>
  {
    if ReachesSwap(journaling, f) then Some(EndOf(before, live, true, retired, f.swap)) else None
  }

  /** On top of that, both renames succeed and say so. */
  predicate SwitchesAfterCreate(live: string, journaling: bool, stamp: string, f: Faults,
                                databases: map<string, Database>) {
    ReachesSwap(journaling, f) && !AsideFails(databases, live, RetiredName(live, stamp), f.swap) && f.swap.land.Clear?
  }

  /** The swap moves a database and its error does not name the retired one. */
  predicate SlipsAfterCreate(live: string, words: Wording, journaling: bool, stamp: string, f: Faults,
                             databases: map<string, Database>) {
    var retired := RetiredName(live, stamp);
    && ReachesSwap(journaling, f)
    && SwapSlips(words, live in databases, live, retired, f.swap, EndOf(databases, live, true, retired, f.swap))
  }

  predicate Slips(live: string, words: Wording, journaling: bool, stamp: string, f: Faults,
                  databases: map<string, Database>) {
    && !f.connect && f.create.Clear? && CandidateName(live, stamp) !in databases
    && SlipsAfterCreate(live, words, journaling, stamp, f, databases)
  }

  /**
   What a command does to the live database and to what is remembered: it stays, goes missing, or is
   replaced by this one, whose content is remembered from then on.
   */
  ghost predicate LiveMoves(live: Option<Database>, lived: map<nat, Content>, live': Option<Database>,
                            lived': map<nat, Content>, oid: nat, content: Content) {
    || (lived' == lived && (live'.Some? ==> live.Some? && SameContent(live.value, live'.value)))
    || (live'.Some? && live'.value.oid == oid && live'.value.content == content && lived' == lived[oid := content])
  }

  /** What a restore made, if it did anything at all: the new database has an identity of its own. */
  ghost predicate RestoreMade(c: Command, live: string, journaling: bool, databases: map<string, Database>,
                              lived: map<nat, Content>, databases': map<string, Database>, lived': map<nat, Content>,
                              oid: nat)
    requires c.Restore?
  {
    var all := RestoreLeaves(databases, live, journaling, oid, c.content, c.stamp, c.faults);
    && oid !in lived && LiveMoves(LiveIn(databases, live), lived, LiveIn(databases', live), lived', oid, c.content)
    && (databases' == all || databases' == databases)
    && (Usable(databases, live, c.stamp) && c.stage == "" ==> databases' == all)
  }

  function LiveIn(databases: map<string, Database>, live: string): Option<Database> {
    if live in databases then Some(databases[live]) else None
  }

  /** Traffic reaches this database. */
  predicate Open(live: Option<Database>) {
    live.Some? && !live.value.sealed
  }

  /** Only a write changes what is remembered of a database, and only of the one that is live. */
  ghost predicate Effect(c: Command, live: string, journaling: bool, databases: map<string, Database>,
                         lived: map<nat, Content>, databases': map<string, Database>, lived': map<nat, Content>) {
    var before, after := LiveIn(databases, live), LiveIn(databases', live);
    match c
    case Restore(_, _, _, _, _) =>
      && AllKept(databases, databases')
      && exists oid :: RestoreMade(c, live, journaling, databases, lived, databases', lived', oid)
    case PromoteBack(name, stamp, f) =>
      && AllKept(databases, databases')
      && if Promotes(c, live, databases)
         then
           var retired := RetiredName(live, stamp);
           && LiveMoves(before, lived, after, lived', databases[name].oid, databases[name].content)
           && SwapLeaves(databases, databases', live, name, retired, f, EndOf(databases, live, true, retired, f))
         else databases' == databases && lived' == lived
    case WriteByApplication(content) =>
      if Open(before) then
        && databases' == databases[live := databases[live].(content := content)]
        && lived' == lived[databases[live].oid := content]
      else databases' == databases && lived' == lived
  }

  /** The promotion of a retired database that is there. */
  ghost predicate Promotes(c: Command, live: string, databases: map<string, Database>) {
    && c.PromoteBack? && Usable(databases, live, c.stamp)
    && ParseRetiredStamp(c.name, live).Some? && c.name in databases
  }

  /** The catalog and the memory before each command and after the last. */
  ghost predicate Trace(commands: seq<Command>, live: string, journaling: bool, catalogs: seq<map<string, Database>>,
                        memory: seq<map<nat, Content>>) {
    && |catalogs| == |memory| == |commands| + 1
    && (forall k :: 0 <= k < |commands| ==>
          Effect(commands[k], live, journaling, catalogs[k], memory[k], catalogs[k + 1], memory[k + 1]))
    && forall k :: 0 <= k < |memory| ==> Faithful(catalogs[k], memory[k])
  }

  /** What is remembered of a database is its content. */
  ghost predicate Faithful(databases: map<string, Database>, lived: map<nat, Content>) {
    forall n :: n in databases && databases[n].oid in lived ==> lived[databases[n].oid] == databases[n].content
  }

  lemma RememberedIsStored(databases: map<string, Database>, live: string, retired: iset<string>,
                           place: map<nat, string>, lived: map<nat, Content>, nextOid: nat)
    requires WellNumbered(databases, nextOid, place) && NothingLost(databases, live, retired, place, lived)
    ensures Faithful(databases, lived)
  {
  }

  /** The content a database has after n commands: that of the last write while it was the live one. */
  ghost function LastContent(commands: seq<Command>, live: string, catalogs: seq<map<string, Database>>,
                             first: Content, oid: nat, n: nat): Content
    requires n <= |commands| && n < |catalogs|
  {
    if n == 0 then first
    else
      var was := LiveIn(catalogs[n - 1], live);
      if commands[n - 1].WriteByApplication? && Open(was) && was.value.oid == oid then commands[n - 1].content
      else LastContent(commands, live, catalogs, first, oid, n - 1)
  }

  lemma {:induction false} TraceRemembers(commands: seq<Command>, live: string, journaling: bool,
                                          catalogs: seq<map<string, Database>>, memory: seq<map<nat, Content>>,
                                          oid: nat, n: nat)
    requires Trace(commands, live, journaling, catalogs, memory) && n <= |commands| && oid in memory[0]
    ensures oid in memory[n] && memory[n][oid] == LastContent(commands, live, catalogs, memory[0][oid], oid, n)
  {
    if n > 0 {
      TraceRemembers(commands, live, journaling, catalogs, memory, oid, n - 1);
      assert Effect(commands[n - 1], live, journaling, catalogs[n - 1], memory[n - 1], catalogs[n], memory[n]);
      assert Faithful(catalogs[n - 1], memory[n - 1]);
    }
  }

  lemma TraceGrows(commands: seq<Command>, live: string, journaling: bool, catalogs: seq<map<string, Database>>,
                   memory: seq<map<nat, Content>>, c: Command, databases: map<string, Database>,
                   lived: map<nat, Content>)
    requires Trace(commands, live, journaling, catalogs, memory) && Faithful(databases, lived)
    requires Effect(c, live, journaling, catalogs[|commands|], memory[|commands|], databases, lived)
    ensures Trace(commands + [c], live, journaling, catalogs + [databases], memory + [lived])
  {
    hide Effect, Faithful;
    var more, d, m := commands + [c], catalogs + [databases], memory + [lived];
    forall k | 0 <= k < |more| ensures Effect(more[k], live, journaling, d[k], m[k], d[k + 1], m[k + 1]) {
      if k < |commands| {
        assert Effect(commands[k], live, journaling, catalogs[k], memory[k], catalogs[k + 1], memory[k + 1]);
      }
    }
    forall k | 0 <= k < |m| ensures Faithful(d[k], m[k]) {
      assert k < |memory| ==> Faithful(catalogs[k], memory[k]);
    }
  }

  lemma NothingHappens(c: Command, live: string, journaling: bool, databases: map<string, Database>,
                       lived: map<nat, Content>, oid: nat)
    requires oid !in lived && !Promotes(c, live, databases)
    requires c.WriteByApplication? ==> !Open(LiveIn(databases, live))
    requires c.Restore? ==> !Usable(databases, live, c.stamp) || c.stage != ""
    ensures Effect(c, live, journaling, databases, lived, databases, lived)
  {
    var d := LiveIn(databases, live);
    AddedKeeps(databases, databases);
    if c.Restore? {
      assert RestoreMade(c, live, journaling, databases, lived, databases, lived, oid);
    }
  }

  datatype Command =
    | Restore(content: Content, stamp: string, stage: string, retiredDir: string, faults: Faults)
    | PromoteBack(name: string, stamp: string, swap: SwapFaults)
    | WriteByApplication(content: Content)

  /** A missing live database under a name of 63 bytes that is its own candidate name is the one case left out. */
  predicate Usable(databases: map<string, Database>, live: string, stamp: string) {
    IsStamp(stamp) && (CandidateName(live, stamp) != live || live in databases)
  }

  /** A database of this identity and content stands under the live name or a retired one. */
  ghost predicate Findable(databases: map<string, Database>, live: string, oid: nat, content: Content) {
    exists name :: && name in databases && databases[name].oid == oid && databases[name].content == content
                   && (name == live || IsRetired(live, name))
  }

  lemma LivedAreFindable(databases: map<string, Database>, live: string, retired: iset<string>, place: map<nat, string>,
                         lived: map<nat, Content>)
    requires NothingLost(databases, live, retired, place, lived) && retired == iset n: string | IsRetired(live, n)
    ensures forall oid :: oid in lived ==> Findable(databases, live, oid, lived[oid])
  {
    hide IsRetired;
    forall oid | oid in lived ensures Findable(databases, live, oid, lived[oid]) {
      assert place[oid] in databases;
    }
  }

  class Engine {
    const catalog: Catalog
    const root: StorageRoot.Root
    const journaling: bool
    var journal: seq<Phase>
    ghost var seen: seq<View>   // the installation when each record was written

    constructor (catalog: Catalog, root: StorageRoot.Root, journaling: bool)
      requires catalog.Valid()
      ensures Valid() && journal == []
      ensures this.catalog == catalog && this.root == root && this.journaling == journaling
    {
      this.catalog, this.root, this.journaling := catalog, root, journaling;
      journal, seen := [], [];
    }

    ghost predicate Valid()
      reads this, catalog
    {
      catalog.Valid() && |seen| == |journal|
    }

    ghost function LiveView(): View
      reads this, catalog, root
    {
      ViewOf(catalog.databases, catalog.live, StorageRoot.Visible(root.entries))
    }

    /** No step after the switch of the database fails. */
    ghost predicate Finishes(entries: StorageRoot.Listing, stage: string, f: Faults, inPlace: bool) {
      && (journaling ==> f.switched.Written? && f.committed.Written?)
      && !(inPlace && f.appRole) && (stage != "" ==> StorageRoot.Completes(entries, stage, f.storage)) && !f.health
    }

    method Record(phase: Phase, w: Write) returns (ok: bool)
      requires Valid()
      modifies this
      ensures Valid() && ok == (!journaling || w.Written?)
      ensures journal == old(journal) + if journaling && !w.Lost? then [phase] else []
      ensures seen == old(seen) + if journaling && !w.Lost? then [LiveView()] else []
    {
      if journaling && !w.Lost? {
        journal := journal + [phase];
        seen := seen + [LiveView()];
      }
      ok := !journaling || w.Written?;
    }

    /** What both modes do once the database has been switched. */
    method FinishRestore(stage: string, retiredDir: string, f: Faults, inPlace: bool) returns (r: Result)
      requires Valid() && (journaling ==> journal == PHASES[..2]) && (!journaling ==> journal == [])
      requires stage != "" ==> StorageRoot.Swappable(root.entries, stage, retiredDir)
      modifies this, root
      ensures Valid() && journal <= PHASES && (!journaling ==> journal == [])
      ensures old(seen) <= seen && old(journal) <= journal
      ensures r == if Finishes(old(root.entries), stage, f, inPlace) then Restored else Failed(true)
      ensures StorageRoot.OthersKept(old(root.entries), {stage, retiredDir}, root.entries)
      ensures r.Restored? ==> !journaling || journal == PHASES
      ensures Committed in journal || r.Restored? ==>
                && !f.health && (inPlace ==> !f.appRole)
                && StorageRoot.Visible(root.entries) == Staged(old(root.entries), stage)
    {
      hide StorageRoot.Swappable, StorageRoot.Completes, StorageRoot.Safe,
        StorageRoot.FailedFrom, StorageRoot.Blamed,
        StorageRoot.Visible, NothingLost, WellNumbered;
      assert PHASES[..2] + [Switched] == PHASES[..3] && PHASES[..3] + [Committed] == PHASES;
      var ok := Record(Switched, f.switched);
      if !ok || (inPlace && f.appRole) {
        return Failed(true);
      }
      if stage != "" {
        var s, _, _, _ := root.SwapStorage(stage, retiredDir, f.storage);
        if s.Failed? {
          return Failed(true);
        }
      }
      if f.health {
        return Failed(true);
      }
      ok := Record(Committed, f.committed);
      r := if ok then Restored else Failed(true);
    }

    predicate LoadSlips(liveExists: bool, f: Faults) {
      (journaling ==> f.prepared.Written? && f.switching.Written?) && liveExists && f.load.WrittenWithError?
    }

    /** restoreInPlace: the dump replaces, object by object, what the live database holds. */
    method RestoreInPlace(dump: Content, stage: string, retiredDir: string, f: Faults) returns (r: Result)
      requires Valid() && journal == []
      requires stage != "" ==> StorageRoot.Swappable(root.entries, stage, retiredDir)
      modifies this, root, catalog`databases, catalog`lived
      ensures Valid() && journal <= PHASES && (!journaling ==> journal == [])
      // no working directory but the two of this restore is touched
      ensures StorageRoot.OthersKept(old(root.entries), {stage, retiredDir}, root.entries)
      // nothing has been touched when the intent to switch is recorded, nor unless it is
      ensures forall i :: 0 <= i < |seen| && i < 2 ==> seen[i] == old(LiveView())
      ensures journaling && Switching !in journal ==> LiveView() == old(LiveView())
      // an error that does not report an inconsistent system leaves everything as it was, unless the
      // load was committed and only the answer to that is lost
      ensures r == Failed(false) && !LoadSlips(old(LiveView()).database.Some?, f) ==>
                LiveView() == old(LiveView()) && catalog.lived == old(catalog.lived)
      ensures LoadSlips(old(LiveView()).database.Some?, f) ==>
                && r == Failed(false) && LiveView().files == old(LiveView()).files && LiveView().database
                   == Some(old(LiveView()).database.value.(content := old(LiveView()).database.value.content + dump))
      ensures Committed in journal || r.Restored? ==>
                && f.load.Written? && !f.appRole && !f.health
                && old(LiveView()).database.Some? && LiveView().database
                   == Some(old(LiveView()).database.value.(content := old(LiveView()).database.value.content + dump))
                && LiveView().files == Staged(old(root.entries), stage)
      ensures r.Restored? ==> !journaling || journal == PHASES
      ensures r.Restored? <==>
                && (journaling ==> f.prepared.Written? && f.switching.Written?) && f.load.Written?
                && old(LiveView()).database.Some? && Finishes(old(root.entries), stage, f, true)
    {
      hide StorageRoot.Swappable, StorageRoot.Completes, StorageRoot.Visible, NothingLost, WellNumbered, Finishes;
      assert [] + [Prepared] == PHASES[..1] && PHASES[..1] + [Switching] == PHASES[..2];
      var ok := Record(Prepared, f.prepared);
      if !ok {
        return Failed(false);
      }
      ok := Record(Switching, f.switching);
      if !ok || f.load.Lost? || catalog.live !in catalog.databases {
        return Failed(false);
      }
      assert journaling ==> journal[1] == Switching;
      catalog.WriteLive(catalog.databases[catalog.live].content + dump);
      if f.load.WrittenWithError? {
        return Failed(false);
      }
      r := FinishRestore(stage, retiredDir, f, true);
    }

    /**
     restoreViaCandidate: load a new database, switch it in, and drop it again unless the
     switch is known to have succeeded.  `content` is the dump brought forward by the
     migrations.
     */
    method RestoreViaCandidate(content: Content, stamp: string,
                               stage: string, retiredDir: string, f: Faults) returns (r: Result)
      requires Valid() && journal == [] && Prepares(stamp)
      requires stage != "" ==> StorageRoot.Swappable(root.entries, stage, retiredDir)
      modifies this, root, catalog
      ensures Valid() && journal <= PHASES && (!journaling ==> journal == [])
      // no working directory but the two of this restore is touched
      ensures StorageRoot.OthersKept(old(root.entries), {stage, retiredDir}, root.entries)
      // nothing has been touched when the intent to switch is recorded, nor unless it is
      ensures forall i :: 0 <= i < |seen| && i < 2 ==> seen[i] == old(LiveView())
      ensures journaling && Switching !in journal ==> LiveView() == old(LiveView())
      // no database that existed before is dropped or altered
      ensures AllKept(old(catalog.databases), catalog.databases) && Remembers(old(catalog.lived), catalog.lived)
      // an error that does not report an inconsistent system means an untouched one, except
      // when the reply to a rename is lost or only the opening of the new database failed
      ensures r == Failed(false) ==>
                (SameInstallation(LiveView(), old(LiveView())) <==>
                 !Slips(catalog.live, catalog.words, journaling, stamp, f, old(catalog.databases)))
      ensures Slips(catalog.live, catalog.words, journaling, stamp, f, old(catalog.databases)) ==>
                r == Failed(false)
      // Committed means both halves were switched and checked
      ensures Committed in journal || r.Restored? ==>
                && !f.health && LiveView().database
                   == Some(Database(old(catalog.nextOid), content, false))
                && LiveView().files == Staged(old(root.entries), stage)
      ensures r.Restored? ==> !journaling || journal == PHASES
      // whatever fails, the live database stays, goes missing or is the new one
      ensures old(catalog.nextOid) !in old(catalog.lived)
      ensures LiveMoves(old(LiveView()).database, old(catalog.lived), LiveView().database, catalog.lived,
                        old(catalog.nextOid), content)
      // the whole catalog, in which no candidate is left unless it cannot be dropped or the reply to its
      // creation is lost
      ensures catalog.databases == RestoreLeaves(old(catalog.databases), catalog.live, journaling, old(catalog.nextOid),
                                                 content, stamp, f)
      ensures f.create.Clear? && !f.drop.Fails? && !f.connect ==>
                CandidateName(catalog.live, stamp) !in old(catalog.databases) ==>
                CandidateName(catalog.live, stamp) !in catalog.databases
      // and with nothing failing the restore completes
      ensures r.Restored? <==>
                && !f.connect && f.create.Clear? && CandidateName(catalog.live, stamp) !in old(catalog.databases)
                && SwitchesAfterCreate(catalog.live, journaling, stamp, f, old(catalog.databases)) && f.swap.open.Clear?
                && Finishes(old(root.entries), stage, f, false)
    {
      hide StorageRoot.Swappable, StorageRoot.Completes, StorageRoot.Visible, NothingLost, WellNumbered, IsStamp,
        CandidateName, RetiredName, SwapLeaves, Contains, UnsealText, AsideFails, AllKept, Leaves, Made, EndOf;
      var candidate := CandidateName(catalog.live, stamp);
      NothingChanges(catalog.databases, LiveView());
      FreshOid(catalog.databases, catalog.nextOid, catalog.place, catalog.lived, catalog.live, catalog.retiredNames);
      if f.connect {
        return Failed(false);
      }
      var reply := catalog.Create(candidate, f.create);
      if reply.Refused? {
        AddedKeeps(old(catalog.databases), catalog.databases);
        return Failed(false);
      }
      r := WithCandidate(content, stamp, stage, retiredDir, f, old(catalog.databases));
    }

    /** The catalog is what the restore leaves, and the candidate is gone unless it could not be dropped. */
    ghost predicate LeavesOnly(before: map<string, Database>, oid: nat, content: Content, stamp: string, f: Faults)
      reads catalog
    {
      var candidate, retired := CandidateName(catalog.live, stamp), RetiredName(catalog.live, stamp);
      && (!f.drop.Fails? ==> candidate !in catalog.databases)
      && catalog.databases == Leaves(before, catalog.live, candidate, retired, Made(oid, content, f), f,
                                     SwapReached(before, catalog.live, journaling, retired, f))
    }

    /** The rest of the restore, once the candidate exists. */
    method WithCandidate(content: Content, stamp: string, stage: string, retiredDir: string,
                         f: Faults, ghost before: map<string, Database>) returns (r: Result)
      requires Valid() && journal == [] && Prepares(stamp)
      requires stage != "" ==> StorageRoot.Swappable(root.entries, stage, retiredDir)
      requires var c := CandidateName(catalog.live, stamp);
               && c != catalog.live && c !in before && c in catalog.databases && catalog.databases - {c} == before
               && catalog.databases[c].oid !in catalog.lived
               && catalog.databases[c] == Database(catalog.databases[c].oid, map[], false)
               && forall n :: n in before ==> before[n].oid != catalog.databases[c].oid
      modifies this, root, catalog`databases, catalog`lived, catalog`place
      ensures Valid() && journal <= PHASES && (!journaling ==> journal == [])
      ensures StorageRoot.OthersKept(old(root.entries), {stage, retiredDir}, root.entries)
      ensures forall i :: 0 <= i < |seen| && i < 2 ==> seen[i] == old(LiveView())
      ensures journaling && Switching !in journal ==> LiveView() == old(LiveView())
      ensures AllKept(before, catalog.databases) && Remembers(old(catalog.lived), catalog.lived)
      ensures r == Failed(false) ==>
                (SameInstallation(LiveView(), old(LiveView())) <==>
                 !SlipsAfterCreate(catalog.live, catalog.words, journaling, stamp, f, before))
      ensures SlipsAfterCreate(catalog.live, catalog.words, journaling, stamp, f, before) ==> r == Failed(false)
      ensures Committed in journal || r.Restored? ==>
                && !f.health && LiveView().database
                   == Some(Database(old(catalog.databases)[CandidateName(catalog.live, stamp)].oid, content, false))
                && LiveView().files == Staged(old(root.entries), stage)
      ensures r.Restored? ==> !journaling || journal == PHASES
      ensures r.Restored? <==>
                && SwitchesAfterCreate(catalog.live, journaling, stamp, f, before) && f.swap.open.Clear?
                && Finishes(old(root.entries), stage, f, false)
      ensures LiveMoves(old(LiveView()).database, old(catalog.lived), LiveView().database, catalog.lived,
                        old(catalog.databases)[CandidateName(catalog.live, stamp)].oid, content)
      ensures LeavesOnly(before, old(catalog.databases)[CandidateName(catalog.live, stamp)].oid, content, stamp, f)
    {
      hide StorageRoot.Swappable, StorageRoot.Completes, StorageRoot.Visible, NothingLost, WellNumbered, IsStamp,
        CandidateName, RetiredName, SwapLeaves, Contains, UnsealText, AsideFails, AllKept, SwapEnd, Finishes,
        SameInstallation, Remembers, LivedAfter, Staged, LiveMoves, EndOf, SwapSlips, Ended, LeavesOnly,
        StorageRoot.OthersKept, Loaded;
      var candidate := CandidateName(catalog.live, stamp);
      var committed;
      ghost var reached;
      r, committed, reached := BuildAndSwitch(content, stamp, stage, retiredDir, f);
      CandidateIsNotRetired(catalog.live, stamp, stamp);
      ghost var after := catalog.databases;
      EndsWell(before, old(catalog.databases), after, catalog.live, candidate, RetiredName(catalog.live, stamp),
               content, f.swap, old(catalog.lived), catalog.lived, reached);
      ClearEnd(before, catalog.live, RetiredName(catalog.live, stamp), catalog.words, f.swap);
      if !committed {
        var _ := catalog.Drop(candidate, f.drop);
      }
      assert forall n :: n in old(catalog.databases) && n != candidate ==> n in before;
      WhatIsServed(old(catalog.databases), after, catalog.databases, catalog.live, candidate, content,
                   old(catalog.lived), catalog.lived, StorageRoot.Visible(root.entries), reached);
      LeavesAll(before, old(catalog.databases), after, content, stamp, f, reached);
    }

    lemma LeavesAll(before: map<string, Database>, created: map<string, Database>, after: map<string, Database>,
                    content: Content, stamp: string, f: Faults, reached: Option<End>)
      requires var candidate, retired := CandidateName(catalog.live, stamp), RetiredName(catalog.live, stamp);
               && candidate != catalog.live && candidate != retired
               && candidate !in before && candidate in created && created - {candidate} == before
               && created[candidate] == Database(created[candidate].oid, map[], false)
               && (reached.None? ==> after == if f.load.Lost? then created else Loaded(created, candidate, content))
               && (reached.Some? ==>
                     && !f.load.Lost?
                     && SwapLeaves(Loaded(created, candidate, content), after, catalog.live, candidate, retired, f.swap,
                                   reached.value))
               && reached == SwapReached(before, catalog.live, journaling, retired, f)
               && (catalog.databases == (if f.drop.Fails? then after else after - {candidate})
                   || (reached == Some(Replaced) && catalog.databases == after))
      ensures LeavesOnly(before, created[CandidateName(catalog.live, stamp)].oid, content, stamp, f)
    {
      hide CandidateName, RetiredName, SwapLeaves, Leaves, EndOf;
      CatalogLeft(before, created, after, catalog.databases, catalog.live, CandidateName(catalog.live, stamp),
                  RetiredName(catalog.live, stamp), content, f, reached);
    }

    /** The generated names are usable for this live name. */
    ghost predicate Prepares(stamp: string)
      reads catalog
    {
      && IsStamp(stamp) && |catalog.live| <= NAME_LIMIT
      && (CandidateName(catalog.live, stamp) != catalog.live || catalog.live in catalog.databases)
      && RetiredName(catalog.live, stamp) in catalog.retiredNames
    }

    /** Everything between the creation of the candidate and its deferred drop; `reached` is how the swap ended. */
    method BuildAndSwitch(content: Content, stamp: string, stage: string, retiredDir: string, f: Faults)
      returns (r: Result, committed: bool, ghost reached: Option<End>)
      requires Valid() && journal == [] && Prepares(stamp)
      requires stage != "" ==> StorageRoot.Swappable(root.entries, stage, retiredDir)
      requires CandidateName(catalog.live, stamp) in catalog.databases
      requires CandidateName(catalog.live, stamp) != catalog.live
      requires catalog.databases[CandidateName(catalog.live, stamp)].oid !in catalog.lived
      modifies this, root, catalog`databases, catalog`lived, catalog`place
      ensures Valid() && journal <= PHASES && (!journaling ==> journal == [])
      ensures StorageRoot.OthersKept(old(root.entries), {stage, retiredDir}, root.entries)
      ensures forall i :: 0 <= i < |seen| && i < 2 ==> seen[i] == old(LiveView())
      ensures journaling && Switching !in journal ==> reached.None?
      ensures reached.Some? <==> ReachesSwap(journaling, f)
      ensures NotReached(old(catalog.databases), catalog.databases, CandidateName(catalog.live, stamp), reached)
      ensures reached.None? ==>
                && r == Failed(false) && catalog.lived == old(catalog.lived) && catalog.databases
                   == if f.load.Lost? then old(catalog.databases)
                      else Loaded(old(catalog.databases), CandidateName(catalog.live, stamp), content)
      ensures reached.Some? ==> SwappedFrom(Loaded(old(catalog.databases), CandidateName(catalog.live, stamp), content),
                                            old(catalog.lived), stamp, f.swap, reached.value)
      ensures SwitchVerdict(old(catalog.live in catalog.databases), stamp, f, r, committed, reached)
      ensures !committed ==> root.entries == old(root.entries) && Committed !in journal
      ensures committed ==> r == if Finishes(old(root.entries), stage, f, false) then Restored else Failed(true)
      ensures Committed in journal || r.Restored? ==>
                && !f.health && LiveView().files == Staged(old(root.entries), stage)
      ensures r.Restored? ==> !journaling || journal == PHASES
    {
      hide StorageRoot.Swappable, StorageRoot.Completes, StorageRoot.Visible, NothingLost, WellNumbered, IsStamp,
        CandidateName, RetiredName, SwapLeaves, Contains, UnsealText, AsideFails, SwapEnd, Finishes, SwappedFrom;
      var candidate := CandidateName(catalog.live, stamp);
      if f.load.Lost? {
        return Failed(false), false, None;
      }
      catalog.Load(candidate, content);
      if f.load.WrittenWithError? || f.prepare {
        return Failed(false), false, None;
      }
      r, committed, reached := RecordAndSwitch(stamp, stage, retiredDir, f);
    }

    /** The catalog, and what it remembers, after a swap that ended in this way. */
    ghost predicate SwappedFrom(loaded: map<string, Database>, lived: map<nat, Content>, stamp: string, f: SwapFaults,
                                end: End)
      reads catalog
    {
      var candidate, retired := CandidateName(catalog.live, stamp), RetiredName(catalog.live, stamp);
      && candidate in loaded && end == SwapEnd(loaded, catalog.live, candidate, retired, f)
      && SwapLeaves(loaded, catalog.databases, catalog.live, candidate, retired, f, end)
      && catalog.lived == if end.Replaced? then LivedAfter(lived, catalog.live, catalog.live, loaded[candidate])
                          else lived
    }

    /** What the caller is told after the swap. */
    ghost predicate SwitchVerdict(liveExists: bool, stamp: string, f: Faults, r: Result, committed: bool,
                                  reached: Option<End>)
      reads catalog
    {
      && (committed <==> reached == Some(Replaced) && f.swap.land.Clear? && f.swap.open.Clear?)
      && (!committed ==> r.Failed?)
      && (reached.Some? && !reached.value.Kept? && !committed ==>
            r.inconsistent == !SwapSlips(catalog.words, liveExists, catalog.live, RetiredName(catalog.live, stamp),
                                         f.swap, reached.value))
      && (committed ==> catalog.live in catalog.databases && !catalog.databases[catalog.live].sealed)
    }

    /** Records the intent, swaps the databases and finishes the restore. */
    method RecordAndSwitch(stamp: string, stage: string, retiredDir: string, f: Faults)
      returns (r: Result, committed: bool, ghost reached: Option<End>)
      requires Valid() && journal == [] && Prepares(stamp)
      requires stage != "" ==> StorageRoot.Swappable(root.entries, stage, retiredDir)
      requires CandidateName(catalog.live, stamp) in catalog.databases
      requires CandidateName(catalog.live, stamp) != catalog.live
      requires catalog.databases[CandidateName(catalog.live, stamp)].oid !in catalog.lived
      modifies this, root, catalog`databases, catalog`lived, catalog`place
      ensures Valid() && journal <= PHASES && (!journaling ==> journal == [])
      ensures StorageRoot.OthersKept(old(root.entries), {stage, retiredDir}, root.entries)
      ensures forall i :: 0 <= i < |seen| && i < 2 ==> seen[i] == old(LiveView())
      ensures journaling && Switching !in journal ==> reached.None?
      ensures reached.None? <==> journaling && !(f.prepared.Written? && f.switching.Written?)
      ensures reached.None? ==>
                && r == Failed(false)
                && catalog.databases == old(catalog.databases) && catalog.lived == old(catalog.lived)
      ensures reached.Some? ==> SwappedFrom(old(catalog.databases), old(catalog.lived), stamp, f.swap, reached.value)
      ensures SwitchVerdict(old(catalog.live in catalog.databases), stamp, f, r, committed, reached)
      ensures !committed ==> root.entries == old(root.entries) && Committed !in journal
      ensures committed ==> r == if Finishes(old(root.entries), stage, f, false) then Restored else Failed(true)
      ensures Committed in journal || r.Restored? ==>
                && !f.health && LiveView().files == Staged(old(root.entries), stage)
      ensures r.Restored? ==> !journaling || journal == PHASES
    {
      hide StorageRoot.Swappable, StorageRoot.Completes, StorageRoot.Visible, NothingLost, WellNumbered, IsStamp,
        CandidateName, RetiredName, SwapLeaves, Contains, UnsealText, AsideFails, SwapEnd, Finishes;
      assert [] + [Prepared] == PHASES[..1] && PHASES[..1] + [Switching] == PHASES[..2];
      var candidate, retired := CandidateName(catalog.live, stamp), RetiredName(catalog.live, stamp);
      CandidateIsNotRetired(catalog.live, stamp, stamp);
      reached, committed := None, false;
      var ok := Record(Prepared, f.prepared);
      if !ok {
        return Failed(false), committed, reached;
      }
      ok := Record(Switching, f.switching);
      if !ok {
        return Failed(false), committed, reached;
      }
      assert journaling ==> journal[1] == Switching;
      var reply;
      ghost var end;
      reply, end := catalog.Swap(candidate, retired, f.swap);
      reached := Some(end);
      if reply.Refused? {
        return Failed(Contains(reply.text, retired)), committed, reached;
      }
      r := FinishRestore(stage, retiredDir, f, false);
      committed := true;
    }

    /** PromoteRetainedDatabase: a retired database becomes live again, the live one is retired. */
    method Promote(name: string, stamp: string, f: SwapFaults) returns (r: Reply)
      requires Valid() && Prepares(stamp)
      modifies catalog`databases, catalog`lived, catalog`place
      ensures Valid() && AllKept(old(catalog.databases), catalog.databases)
      ensures Remembers(old(catalog.lived), catalog.lived)
      ensures r.Done? <==>
                && ParseRetiredStamp(name, catalog.live).Some? && name in old(catalog.databases)
                && !AsideFails(old(catalog.databases), catalog.live, RetiredName(catalog.live, stamp), f)
                && f.land.Clear? && f.open.Clear?
      ensures r.Done? ==> catalog.live in catalog.databases && !catalog.databases[catalog.live].sealed
                          && SameContent(old(catalog.databases)[name], catalog.databases[catalog.live])
      // the whole catalog: a promotion that is not made leaves the live database as it was, and open unless
      // a statement about its seal or its name went wrong
      ensures ParseRetiredStamp(name, catalog.live).None? || name !in old(catalog.databases) ==>
                catalog.databases == old(catalog.databases) && catalog.lived == old(catalog.lived)
      ensures ParseRetiredStamp(name, catalog.live).Some? && name in old(catalog.databases) ==>
                var retired := RetiredName(catalog.live, stamp);
                SwapLeaves(old(catalog.databases), catalog.databases, catalog.live, name, retired, f,
                           EndOf(old(catalog.databases), catalog.live, true, retired, f))
      ensures name in old(catalog.databases) ==>
                LiveMoves(old(LiveView()).database, old(catalog.lived), LiveView().database, catalog.lived,
                          old(catalog.databases)[name].oid, old(catalog.databases)[name].content)
    {
      hide NothingLost, WellNumbered, IsStamp, RetiredName, CandidateName, ParseRetiredStamp, SwapLeaves, Contains,
        AllKept, AsideFails, SameContent;
      var replaced := RetiredName(catalog.live, stamp);
      NothingChanges(catalog.databases, LiveView());
      if ParseRetiredStamp(name, catalog.live).None? || name !in catalog.databases {
        return Refused("");
      }
      ParsedIsLonger(name, catalog.live);
      ghost var before := catalog.databases;
      if catalog.databases[name].oid in catalog.lived {
        catalog.LivedContent(name);
      }
      ghost var end;
      r, end := catalog.Swap(name, replaced, f);
      PromotionKeepsAll(before, catalog.databases, catalog.live, name, replaced, f, end);
    }

    /** The retired names of the catalog are the ones retiredName gives. */
    ghost predicate NamesKnown()
      reads catalog
    {
      |catalog.live| <= NAME_LIMIT && catalog.retiredNames == iset n: string | IsRetired(catalog.live, n)
    }

    /**
     Any run of candidate restores, promotions and writes by the application, whatever
     fails on the way: every database that was ever live, those of the start included, is
     still there with the content it last had as the live one, under the live name or a
     retired one. `catalogs` and `memory` say what each command did.
     */
    method Run(commands: seq<Command>)
      returns (ghost catalogs: seq<map<string, Database>>, ghost memory: seq<map<nat, Content>>)
      requires Valid() && NamesKnown()
      modifies this, root, catalog
      ensures Valid() && Trace(commands, catalog.live, journaling, catalogs, memory)
      ensures catalogs[0] == old(catalog.databases) && catalogs[|commands|] == catalog.databases
      ensures memory[0] == old(catalog.lived) && memory[|commands|] == catalog.lived
      ensures forall oid :: oid in old(catalog.lived) ==>
                && oid in catalog.lived
                && catalog.lived[oid]
                   == LastContent(commands, catalog.live, catalogs, old(catalog.lived)[oid], oid, |commands|)
      ensures forall oid :: oid in catalog.lived ==> Findable(catalog.databases, catalog.live, oid, catalog.lived[oid])
    {
      hide NothingLost, WellNumbered, AllKept, IsStamp, CandidateName, RetiredName, StorageRoot.Swappable, IsRetired,
        Trace, Effect, StorageRoot.Visible, LastContent, Faithful;
      catalogs, memory := [catalog.databases], [catalog.lived];
      RememberedIsStored(catalog.databases, catalog.live, catalog.retiredNames, catalog.place, catalog.lived,
                         catalog.nextOid);
      EmptyTrace(catalog.live, journaling, catalog.databases, catalog.lived);
      for i := 0 to |commands|
        invariant Valid() && |catalogs| == |memory| == i + 1
        invariant Trace(commands[..i], catalog.live, journaling, catalogs, memory)
        invariant catalogs[0] == old(catalog.databases) && catalogs[i] == catalog.databases
        invariant memory[0] == old(catalog.lived) && memory[i] == catalog.lived
      {
        Perform(commands[i]);
        RememberedIsStored(catalog.databases, catalog.live, catalog.retiredNames, catalog.place, catalog.lived,
                           catalog.nextOid);
        assert commands[..i + 1] == commands[..i] + [commands[i]];
        TraceGrows(commands[..i], catalog.live, journaling, catalogs, memory, commands[i], catalog.databases,
                   catalog.lived);
        catalogs, memory := catalogs + [catalog.databases], memory + [catalog.lived];
      }
      assert commands[..|commands|] == commands;
      forall oid | oid in old(catalog.lived)
        ensures && oid in catalog.lived
                && catalog.lived[oid]
                   == LastContent(commands, catalog.live, catalogs, old(catalog.lived)[oid], oid, |commands|)
      {
        TraceRemembers(commands, catalog.live, journaling, catalogs, memory, oid, |commands|);
      }
      LivedAreFindable(catalog.databases, catalog.live, catalog.retiredNames, catalog.place, catalog.lived);
    }

    /** One command of a run, if its names are usable. */
    method Perform(c: Command)
      requires Valid() && NamesKnown()
      modifies this, root, catalog
      ensures Valid()
      ensures Effect(c, catalog.live, journaling, old(catalog.databases), old(catalog.lived), catalog.databases,
                     catalog.lived)
    {
      hide NothingLost, WellNumbered, AllKept, IsStamp, CandidateName, RetiredName, StorageRoot.Swappable, IsRetired,
        LiveMoves, RestoreLeaves, SwapLeaves, EndOf, StorageRoot.Visible, SameInstallation, Slips, SwitchesAfterCreate,
        Finishes, Staged, Remembers, AsideFails;
      FreshOid(catalog.databases, catalog.nextOid, catalog.place, catalog.lived, catalog.live, catalog.retiredNames);
      ghost var oid, databases, lived := catalog.nextOid, catalog.databases, catalog.lived;
      if && (c.WriteByApplication? ==> !Open(LiveView().database)) && !Promotes(c, catalog.live, databases)
         && (c.Restore? ==> !Usable(databases, catalog.live, c.stamp) || c.stage != "") {
        NothingHappens(c, catalog.live, journaling, databases, lived, oid);
      }
      match c
      case Restore(content, stamp, stage, retiredDir, f) =>
        if Usable(catalog.databases, catalog.live, stamp)
           && (stage != "" ==> StorageRoot.Swappable(root.entries, stage, retiredDir)) {
          journal, seen := [], [];
          RetiredNamesAreRetired(catalog.live, stamp);
          var _ := RestoreViaCandidate(content, stamp, stage, retiredDir, f);
          assert RestoreMade(c, catalog.live, journaling, databases, lived, catalog.databases, catalog.lived, oid);
        }
      case PromoteBack(name, stamp, f) =>
        if Usable(catalog.databases, catalog.live, stamp) {
          RetiredNamesAreRetired(catalog.live, stamp);
          var _ := Promote(name, stamp, f);
        }
      case WriteByApplication(content) =>
        if catalog.live in catalog.databases && !catalog.databases[catalog.live].sealed {
          catalog.WriteLive(content);
        }
    }
  }

  lemma EmptyTrace(live: string, journaling: bool, databases: map<string, Database>, lived: map<nat, Content>)
    requires Faithful(databases, lived)
    ensures Trace([], live, journaling, [databases], [lived])
  {
  }

  /** Nothing but the swap fails. */
  function OnlySwapFails(swap: SwapFaults): Faults {
    Faults(false, Clear, Written, false, Written, Written, Written, Written, swap, false,
           StorageRoot.Faults(false, false, -1, false, -1, map[], {}), false, Clear)
  }

  const NO_FAULTS := SwapFaults(None, Clear, Clear, Clear, Clear, Clear, Clear, Clear)

  /**
   The exceptions in the contract of RestoreViaCandidate are real. With the engine's own texts and
   every other statement succeeding, an opening the server denies is one.
   */
  lemma OpeningCanSlip() returns (stamp: string, f: Faults, databases: map<string, Database>)
    ensures f == OnlySwapFails(NO_FAULTS.(open := Fails("ERROR: permission denied (SQLSTATE 42501)")))
    ensures Usable(databases, "v", stamp) && Slips("v", TEXTS, true, stamp, f, databases)
  {
    var cause := "ERROR: permission denied (SQLSTATE 42501)";
    f := OnlySwapFails(NO_FAULTS.(open := Fails(cause)));
    databases := map["v" := Database(0, map[], false)];
    stamp := UsableStamp();
    OpeningText();
    DeniedText();
    TextLacksName(TEXTS.quote + "v" + TEXTS.quote + TEXTS.unseal + cause, RetiredName("v", stamp));
  }

  /**
   So is a rename whose reply is lost: the one aside, after which there is no live database, or the
   one into place on a cluster that had none.
   */
  lemma LostReplyCanSlip(first: bool) returns (stamp: string, f: Faults, databases: map<string, Database>)
    ensures f == OnlySwapFails(if first then NO_FAULTS.(aside := Unheard("unexpected EOF"))
                               else NO_FAULTS.(land := Unheard("unexpected EOF")))
    ensures databases == if first then map["v" := Database(0, map[], false)] else map[]
    ensures Usable(databases, "v", stamp) && Slips("v", TEXTS, true, stamp, f, databases)
  {
    var cause := "unexpected EOF";
    f := OnlySwapFails(if first then NO_FAULTS.(aside := Unheard(cause)) else NO_FAULTS.(land := Unheard(cause)));
    databases := if first then map["v" := Database(0, map[], false)] else map[];
    stamp := UsableStamp();
    RenameTexts();
    TextLacksName(TEXTS.aside + cause, RetiredName("v", stamp));
    TextLacksName(TEXTS.land + cause, RetiredName("v", stamp));
  }

  lemma UsableStamp() returns (stamp: string)
    ensures IsStamp(stamp) && '_' in RetiredName("v", stamp)
    ensures |CandidateName("v", stamp)| > 1 && |RetiredName("v", stamp)| > 1
  {
    stamp := "20240101T000000Z";
    SomeStamp();
    hide IsMoment;
    RetiredTail("v", stamp);
    CandidateTail("v", stamp);
    var retired := RetiredName("v", stamp);
    assert retired[|retired| - 21..][0] == '_';
  }

  lemma OpeningText()
    ensures '_' !in OPENING_TEXT && '_' !in "\""
  {
  }

  lemma DeniedText()
    ensures '_' !in "ERROR: permission denied (SQLSTATE 42501)"
  {
  }

  lemma RenameTexts()
    ensures '_' !in ASIDE_TEXT && '_' !in LANDING_TEXT && '_' !in "unexpected EOF"
  {
  }

  lemma TextLacksName(text: string, retired: string)
    requires '_' !in text && '_' in retired
    ensures !Contains(text, retired)
  {
    var k :| 0 <= k < |retired| && retired[k] == '_';
    forall i | 0 <= i <= |text| ensures !(retired <= text[i..]) {
      assert i + k < |text| ==> text[i..][k] == text[i + k] && text[i + k] in text;
    }
  }
}
