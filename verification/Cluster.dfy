/**
 The database catalog of a cluster and the candidate swap
 (internal/backup/candidate.go and internal/backup/retention.go).

 A database keeps its identity (oid) through renames.  `lived` remembers every database
 that was ever the live one together with the content it had when it last was.  Each SQL
 statement is one method that may be refused and keeps `Valid()`; because `Valid()` holds
 between any two statements, what it says survives a crash at any point of any command.
 */
module Cluster {
  import opened DatabaseNames
  import opened Wrappers

  /** The objects of a database, by name. */
  type Content = map<string, string>

  datatype Database = Database(oid: nat, content: Content, sealed: bool)

  /** A statement is carried out, or refused with the text of its error. */
  datatype Reply = Done | Refused(text: string)

  /** What happens to a statement: nothing, it fails, or it is carried out and its reply is lost. */
  datatype Fault = Clear | Fails(text: string) | Unheard(text: string)

  /** The faults of one swap. */
  datatype SwapFaults = SwapFaults(
    exists_: Option<string>,      // SELECT EXISTS ...
    seal: Fault,                  // close the live database
    aside: Fault,                 // live -> retired
    reopen: Fault,                // open the live database after a failed rename aside
    land: Fault,                  // candidate -> live
    undo: Fault,                  // retired -> live
    reopenUndone: Fault,          // open it after the undo
    open: Fault)                  // open the new live database

  /** The fixed parts of the error texts, the server's own two among them. */
  datatype Wording = Wording(
    doesNotExist: string, alreadyExists: string, quote: string, seal: string, unseal: string,
    aside: string, land: string, strandedCause: string, strandedName: string, strandedUndo: string)

  const OPENING_TEXT := " veritabanı bağlantılara açılamadı: "

  const ASIDE_TEXT := "mevcut veritabanı kenara alınamadı: "
  const LANDING_TEXT := "aday veritabanı yerine konulamadı: "

  /** As the engine and the server word them. */
  const TEXTS := Wording(
    "database does not exist: ", "database already exists: ", "\"",
    " veritabanı yeni bağlantılara kapatılamadı: ", OPENING_TEXT,
    ASIDE_TEXT, LANDING_TEXT,
    "aday yerine konulamadı (", ") ve eski veritabanı ", " adıyla kenarda kaldı: ")

  /** Where a swap leaves the catalog. */
  datatype End = Kept | Stranded | Replaced

  predicate Contains(text: string, part: string) {
    exists i :: 0 <= i <= |text| && part <= text[i..]
  }

  predicate SameContent(d: Database, e: Database) {
    d.oid == e.oid && d.content == e.content
  }

  /** Names fit, and every identity stands in exactly one place. */
  ghost predicate WellNumbered(databases: map<string, Database>, nextOid: nat, place: map<nat, string>) {
    forall n :: n in databases ==>
      |n| <= NAME_LIMIT && databases[n].oid < nextOid && databases[n].oid in place && place[databases[n].oid] == n
  }

  /** Every database that ever lived is there, with its content, under the live name or a retired one. */
  ghost predicate NothingLost(databases: map<string, Database>, live: string, retired: iset<string>,
                              place: map<nat, string>, lived: map<nat, Content>) {
    && (live in databases ==> databases[live].oid in lived)
    && (forall oid :: oid in lived ==>
          && oid in place && place[oid] in databases
          && databases[place[oid]].oid == oid && databases[place[oid]].content == lived[oid]
          && (place[oid] == live || place[oid] in retired))
  }

  class Catalog {
    const live: string
    const words: Wording
    ghost const retiredNames: iset<string>   // the names retiredName can give
    var databases: map<string, Database>
    var nextOid: nat
    ghost var place: map<nat, string>
    ghost var lived: map<nat, Content>

    ghost predicate Valid()
      reads this
    {
      WellNumbered(databases, nextOid, place) && NothingLost(databases, live, retiredNames, place, lived)
    }

    /** A cluster whose only database is the live one. */
    constructor (live: string, words: Wording, content: Content)
      requires |live| <= NAME_LIMIT
      ensures Valid() && this.live == live && this.words == words && lived == map[0 := content]
      ensures databases == map[live := Database(0, content, false)]
      ensures retiredNames == iset n: string | IsRetired(live, n)
    {
      this.live, this.words := live, words;
      retiredNames := iset n: string | IsRetired(live, n);
      databases, nextOid := map[live := Database(0, content, false)], 1;
      place, lived := map[0 := live], map[0 := content];
    }

    /** Nothing but the seal of one database changes. */
    method SetSealed(name: string, sealed: bool, fault: Fault) returns (r: Reply)
      requires Valid()
      modifies this`databases
      ensures Valid() && r == if fault.Clear? then Done else Refused(fault.text)
      ensures databases == if fault.Fails? then old(databases) else WithSeal(old(databases), name, sealed)
    {
      hide NothingLost, WellNumbered;
      r := if fault.Clear? then Done else Refused(fault.text);
      if !fault.Fails? {
        SealKeeps(databases, live, retiredNames, place, lived, nextOid, name, sealed);
        databases := WithSeal(databases, name, sealed);
      }
    }

    /** ALTER DATABASE from RENAME TO to.  A database that ever lived only moves to the live or a retired name. */
    method Rename(from: string, to: string, fault: Fault) returns (r: Reply)
      requires Valid() && |to| <= NAME_LIMIT
      requires from in databases && databases[from].oid in lived ==> to == live || to in retiredNames
      modifies this`databases, this`place, this`lived
      ensures Valid() && r.Done? == (fault.Clear? && Moves(old(databases), from, to, fault))
      ensures !fault.Clear? ==> r == Refused(fault.text)
      ensures !Moves(old(databases), from, to, fault) ==> databases == old(databases) && lived == old(lived)
      ensures Moves(old(databases), from, to, fault) ==>
                && databases == Renamed(old(databases), from, to)
                && lived == LivedAfter(old(lived), live, to, old(databases)[from])
    {
      hide NothingLost, WellNumbered;
      r := if !fault.Clear? then Refused(fault.text)
           else if from !in databases then Refused(words.doesNotExist + from)
           else if to in databases then Refused(words.alreadyExists + to) else Done;
      if Moves(databases, from, to, fault) {
        RenameKeeps(databases, live, retiredNames, place, lived, nextOid, from, to);
        lived := LivedAfter(lived, live, to, databases[from]);
        place := place[databases[from].oid := to];
        databases := Renamed(databases, from, to);
      }
    }

    /** CREATE DATABASE ... TEMPLATE template0: empty and open. */
    method Create(name: string, fault: Fault) returns (r: Reply)
      requires Valid() && |name| <= NAME_LIMIT && (name != live || live in databases)
      modifies this`databases, this`nextOid, this`place
      ensures Valid() && r.Done? == (fault.Clear? && name !in old(databases))
      ensures fault.Fails? || name in old(databases) ==> databases == old(databases) && nextOid == old(nextOid)
      ensures !fault.Fails? && name !in old(databases) ==>
                && databases == old(databases)[name := Database(old(nextOid), map[], false)]
                && nextOid == old(nextOid) + 1 && old(nextOid) !in lived
    {
      hide NothingLost, WellNumbered;
      r := if !fault.Clear? then Refused(fault.text)
           else if name in databases then Refused(words.alreadyExists + name) else Done;
      if !fault.Fails? && name !in databases {
        CreateKeeps(databases, live, retiredNames, place, lived, nextOid, name);
        place := place[nextOid := name];
        databases := databases[name := Database(nextOid, map[], false)];
        nextOid := nextOid + 1;
      }
    }

    /** DROP DATABASE IF EXISTS, only ever of a database that never was the live one. */
    method Drop(name: string, fault: Fault) returns (r: Reply)
      requires Valid() && (name in databases ==> databases[name].oid !in lived)
      modifies this`databases
      ensures Valid() && r.Done? == fault.Clear?
      ensures databases == if fault.Fails? then old(databases) else old(databases) - {name}
    {
      hide NothingLost, WellNumbered;
      r := if fault.Clear? then Done else Refused(fault.text);
      if !fault.Fails? {
        DropKeeps(databases, live, retiredNames, place, lived, nextOid, name);
        databases := databases - {name};
      }
    }

    /** pg_restore and the migrations, into a database that never was the live one. */
    method Load(name: string, content: Content)
      requires Valid() && name in databases && databases[name].oid !in lived
      modifies this`databases
      ensures Valid() && databases == old(databases)[name := old(databases)[name].(content := content)]
    {
      hide NothingLost, WellNumbered;
      LoadKeeps(databases, live, retiredNames, place, lived, nextOid, name, content);
      databases := databases[name := databases[name].(content := content)];
    }

    /** The application, or an in-place restore, writes to the live database. */
    method WriteLive(content: Content)
      requires Valid() && live in databases
      modifies this`databases, this`lived
      ensures Valid() && databases == old(databases)[live := old(databases)[live].(content := content)]
      ensures lived == old(lived)[old(databases)[live].oid := content]
    {
      hide NothingLost, WellNumbered;
      WriteKeeps(databases, live, retiredNames, place, lived, nextOid, content);
      lived := lived[databases[live].oid := content];
      databases := databases[live := databases[live].(content := content)];
    }

    /** sealDatabase; the sessions it then terminates are not part of the catalog. */
    method Seal(name: string, fault: Fault) returns (r: Reply)
      requires Valid()
      modifies this`databases
      ensures Valid() && r.Done? == fault.Clear? && (r.Refused? ==> r.text == SealText(words, name, fault.text))
      ensures databases == if fault.Fails? then old(databases) else WithSeal(old(databases), name, true)
    {
      hide NothingLost, WellNumbered;
      r := SetSealed(name, true, fault);
      if r.Refused? {
        r := Refused(SealText(words, name, r.text));
      }
    }

    method Unseal(name: string, fault: Fault) returns (r: Reply)
      requires Valid()
      modifies this`databases
      ensures Valid() && r.Done? == fault.Clear? && (r.Refused? ==> r.text == UnsealText(words, name, fault.text))
      ensures databases == OpenedUnless(fault, old(databases), name)
    {
      hide NothingLost, WellNumbered;
      r := SetSealed(name, false, fault);
      if r.Refused? {
        r := Refused(UnsealText(words, name, r.text));
      }
    }

    /**
     candidateSession.swap: live is renamed aside, the candidate renamed into its place; a
     failure of the second rename is undone if it can be.  The reply of a swap that moved a
     database names the retired one, except when it slips.
     */
    method Swap(candidate: string, retired: string, f: SwapFaults) returns (r: Reply, ghost end: End)
      requires Valid() && candidate != live && (candidate != retired || candidate in databases)
      requires |live| <= NAME_LIMIT && |retired| <= NAME_LIMIT && retired in retiredNames
      modifies this`databases, this`place, this`lived
      ensures Valid() && end == SwapEnd(old(databases), live, candidate, retired, f)
      ensures SwapLeaves(old(databases), databases, live, candidate, retired, f, end)
      // a swap that kept the live database leaves it open unless a statement about its seal or its name went wrong
      ensures end.Kept? && f.exists_.None? && f.seal.Clear? && !f.reopen.Fails? && f.undo.Clear? ==>
                (live in databases && !f.reopenUndone.Fails? ==> !databases[live].sealed)
      ensures lived == if end.Replaced? then LivedAfter(old(lived), live, live, old(databases)[candidate])
                       else old(lived)
      ensures r.Done? <==> end.Replaced? && f.land.Clear? && f.open.Clear?
      ensures r.Done? ==> live in databases && !databases[live].sealed
      ensures r.Refused? && !end.Kept? ==>
                (Contains(r.text, retired) <==> !SwapSlips(words, live in old(databases), live, retired, f, end))
    {
      hide NothingLost, WellNumbered, Contains;
      if f.exists_.Some? {
        return Refused(f.exists_.value), Kept;
      }
      var liveExists := live in databases;
      if liveExists {
        LivedContent(live);
        r := SetAside(retired, f);
        if r.Refused? {
          return r, if AsideMoves(old(databases), retired, f) then Stranded else Kept;
        }
        RenameBack(WithSeal(old(databases), live, true), live, retired);
      }
      r, end := PutInPlace(liveExists, candidate, retired, f);
    }

    lemma LivedContent(name: string)
      requires Valid() && name in databases && (name == live || databases[name].oid in lived)
      ensures databases[name].oid in lived && lived[databases[name].oid] == databases[name].content
    {
    }

    /** Closes the live database and renames it aside. */
    method SetAside(retired: string, f: SwapFaults) returns (r: Reply)
      requires Valid() && live in databases && |retired| <= NAME_LIMIT && retired in retiredNames
      modifies this`databases, this`place, this`lived
      ensures Valid() && lived == old(lived)
      ensures r.Done? <==> AsideMoves(old(databases), retired, f) && f.aside.Clear?
      ensures AsideMoves(old(databases), retired, f) ==>
                databases == Renamed(WithSeal(old(databases), live, true), live, retired)
      // the seal is lifted again: only a lost reply to it, or a failing reopening, leaves the database shut
      ensures !AsideMoves(old(databases), retired, f) ==>
                databases == old(databases)[live := old(databases)[live].(
                               sealed := if f.seal.Fails? then old(databases)[live].sealed
                                         else f.seal.Unheard? || f.reopen.Fails?)]
      ensures r.Refused? && AsideMoves(old(databases), retired, f) ==> r.text == words.aside + f.aside.text
    {
      hide NothingLost, WellNumbered;
      r := Seal(live, f.seal);
      if r.Refused? {
        return;
      }
      r := Rename(live, retired, f.aside);
      if r.Refused? {
        // for all the engine knows this database is still the live one
        var _ := Unseal(live, f.reopen);
        r := Refused(words.aside + r.text);
      }
    }

    /** The second rename of a swap, its undo, and the opening of the new live database. */
    method PutInPlace(liveExists: bool, candidate: string, retired: string, f: SwapFaults)
      returns (r: Reply, ghost end: End)
      requires Valid() && candidate != live && (liveExists ==> candidate != retired && retired != live)
      requires live !in databases
      requires |live| <= NAME_LIMIT
      requires liveExists ==> retired in databases && databases[retired].oid in lived
      modifies this`databases, this`place, this`lived
      ensures Valid() && end == LandEnd(candidate in old(databases), liveExists, f)
      ensures databases == match end
                           case Replaced =>
                             var landed := Renamed(old(databases), candidate, live);
                             if f.land.Clear? then OpenedUnless(f.open, landed, live) else landed
                           case Stranded => old(databases)
                           case Kept =>
                             if !liveExists then old(databases)
                             else
                               var back := Renamed(old(databases), retired, live);
                               if f.undo.Clear? then OpenedUnless(f.reopenUndone, back, live) else back
      ensures lived == if end.Replaced? then LivedAfter(old(lived), live, live, old(databases)[candidate])
                       else old(lived)
      ensures r.Done? <==> end.Replaced? && f.land.Clear? && f.open.Clear?
      ensures r.Refused? && !end.Kept? ==>
                if f.land.Clear? && end.Replaced? then r.text == UnsealText(words, live, f.open.text)
                else if liveExists then Contains(r.text, retired) else r.text == words.land + f.land.text
    {
      hide NothingLost, WellNumbered, Contains;
      end := LandEnd(candidate in databases, liveExists, f);
      if liveExists {
        LivedContent(retired);
      }
      r := Rename(candidate, live, f.land);
      if r.Refused? {
        if liveExists {
          var undo := Rename(retired, live, f.undo);
          assert !end.Replaced? ==> lived == old(lived);
          if undo.Refused? {
            StrandedNamesRetired(words, r.text, retired, undo.text);
            return Refused(StrandedText(words, r.text, retired, undo.text)), end;
          }
          var _ := Unseal(live, f.reopenUndone);
        }
        return Refused(words.land + r.text), end;
      }
      r := Unseal(live, f.open);
    }
  }

  predicate Moves(databases: map<string, Database>, from: string, to: string, fault: Fault) {
    !fault.Fails? && from in databases && to !in databases
  }

  function SealText(w: Wording, name: string, cause: string): string {
    w.quote + name + w.quote + w.seal + cause
  }

  function UnsealText(w: Wording, name: string, cause: string): string {
    w.quote + name + w.quote + w.unseal + cause
  }

  function StrandedText(w: Wording, cause: string, retired: string, undo: string): string {
    w.strandedCause + cause + w.strandedName + retired + w.strandedUndo + undo
  }

  function WithSeal(databases: map<string, Database>, name: string, sealed: bool): map<string, Database> {
    if name in databases then databases[name := databases[name].(sealed := sealed)] else databases
  }

  /** The live database, if there is one, is renamed aside. */
  predicate AsideMoves(databases: map<string, Database>, retired: string, f: SwapFaults) {
    f.seal.Clear? && !f.aside.Fails? && retired !in databases
  }

  /** The swap goes no further than the rename aside. */
  predicate AsideFails(databases: map<string, Database>, live: string, retired: string, f: SwapFaults) {
    f.exists_.Some? || (live in databases && !(AsideMoves(databases, retired, f) && f.aside.Clear?))
  }

  function LandEnd(hasCandidate: bool, liveExists: bool, f: SwapFaults): End {
    if hasCandidate && !f.land.Fails? then Replaced else if liveExists && f.undo.Fails? then Stranded else Kept
  }

  /** How a swap must end, by the faults and the names that are taken. */
  function EndOf(databases: map<string, Database>, live: string, hasCandidate: bool, retired: string,
                 f: SwapFaults): End {
    if !AsideFails(databases, live, retired, f) then LandEnd(hasCandidate, live in databases, f)
    else if f.exists_.None? && AsideMoves(databases, retired, f) then Stranded else Kept
  }

  function SwapEnd(databases: map<string, Database>, live: string, candidate: string, retired: string,
                   f: SwapFaults): End {
    EndOf(databases, live, candidate in databases, retired, f)
  }

  /**
   A database was moved and the error does not name the retired one: the reply to a rename is lost,
   or the new live database is not opened.
   */
  predicate SwapSlips(w: Wording, liveExists: bool, live: string, retired: string, f: SwapFaults, end: End) {
    match end
    case Kept => false
    case Stranded => f.aside.Unheard? && !Contains(w.aside + f.aside.text, retired)
    case Replaced =>
      if f.land.Clear? then !f.open.Clear? && !Contains(UnsealText(w, live, f.open.text), retired)
      else !liveExists && !Contains(w.land + f.land.text, retired)
  }

  /** The seal a live database has after a swap that kept it: lifted, unless a statement about it went wrong. */
  ghost predicate KeptSealed(was: bool, retiredTaken: bool, f: SwapFaults) {
    if f.exists_.Some? || f.seal.Fails? then was
    else if f.seal.Unheard? then true
    else if f.aside.Fails? || retiredTaken then f.reopen.Fails?
    else !f.undo.Clear? || f.reopenUndone.Fails?
  }

  ghost function Sealing(d: Database, sealed: bool): Database {
    Database(d.oid, d.content, sealed)
  }

  /** The whole catalog at each end: only two seals and the three names are touched. */
  ghost predicate SwapLeaves(before: map<string, Database>, after: map<string, Database>,
                             live: string, candidate: string, retired: string, f: SwapFaults, end: End) {
    match end
    case Kept =>
      if live in before
      then after == before[live := Sealing(before[live], KeptSealed(before[live].sealed, retired in before, f))]
      else after == before
    case Stranded =>
      live in before && after == (before - {live})[retired := Sealing(before[live], true)]
    case Replaced =>
      && candidate in before
      && var aside := if live in before then (before - {live})[retired := Sealing(before[live], true)] else before;
         candidate in aside
         && after == (aside - {candidate})[live :=
                       Sealing(aside[candidate], aside[candidate].sealed && !(f.land.Clear? && !f.open.Fails?))]
  }

  function OpenedUnless(fault: Fault, databases: map<string, Database>, name: string): map<string, Database> {
    if fault.Fails? then databases else WithSeal(databases, name, false)
  }

  lemma RenameBack(databases: map<string, Database>, from: string, to: string)
    requires from in databases && to !in databases
    ensures Renamed(Renamed(databases, from, to), to, from) == databases
  {
  }

  lemma StrandedNamesRetired(w: Wording, cause: string, retired: string, undo: string)
    ensures Contains(StrandedText(w, cause, retired, undo), retired)
  {
    var head, tail := w.strandedCause + cause + w.strandedName, w.strandedUndo + undo;
    assert StrandedText(w, cause, retired, undo) == head + (retired + tail);
    assert (head + (retired + tail))[|head|..] == retired + tail;
  }

  function Renamed(databases: map<string, Database>, from: string, to: string): map<string, Database>
    requires from in databases
  {
    (databases - {from})[to := databases[from]]
  }

  /** A database that reaches the live name has lived. */
  function LivedAfter(lived: map<nat, Content>, live: string, to: string, moved: Database): map<nat, Content> {
    if to == live then lived[moved.oid := moved.content] else lived
  }

  lemma RenameKeeps(databases: map<string, Database>, live: string, retired: iset<string>, place: map<nat, string>,
                    lived: map<nat, Content>, nextOid: nat, from: string, to: string)
    requires WellNumbered(databases, nextOid, place) && NothingLost(databases, live, retired, place, lived)
    requires from in databases && to !in databases && |to| <= NAME_LIMIT
    requires databases[from].oid in lived ==> to == live || to in retired
    ensures WellNumbered(Renamed(databases, from, to), nextOid, place[databases[from].oid := to])
    ensures NothingLost(Renamed(databases, from, to), live, retired, place[databases[from].oid := to],
                        LivedAfter(lived, live, to, databases[from]))
  {
  }

  lemma CreateKeeps(databases: map<string, Database>, live: string, retired: iset<string>, place: map<nat, string>,
                    lived: map<nat, Content>, nextOid: nat, name: string)
    requires WellNumbered(databases, nextOid, place) && NothingLost(databases, live, retired, place, lived)
    requires name !in databases && name != live && |name| <= NAME_LIMIT
    ensures WellNumbered(databases[name := Database(nextOid, map[], false)], nextOid + 1, place[nextOid := name])
    ensures NothingLost(databases[name := Database(nextOid, map[], false)], live, retired, place[nextOid := name],
                        lived)
    ensures nextOid !in lived
  {
  }

  lemma SealKeeps(databases: map<string, Database>, live: string, retired: iset<string>, place: map<nat, string>,
                  lived: map<nat, Content>, nextOid: nat, name: string, sealed: bool)
    requires WellNumbered(databases, nextOid, place) && NothingLost(databases, live, retired, place, lived)
    ensures WellNumbered(WithSeal(databases, name, sealed), nextOid, place)
    ensures NothingLost(WithSeal(databases, name, sealed), live, retired, place, lived)
  {
  }

  lemma DropKeeps(databases: map<string, Database>, live: string, retired: iset<string>, place: map<nat, string>,
                  lived: map<nat, Content>, nextOid: nat, name: string)
    requires WellNumbered(databases, nextOid, place) && NothingLost(databases, live, retired, place, lived)
    requires name in databases ==> databases[name].oid !in lived
    ensures WellNumbered(databases - {name}, nextOid, place)
    ensures NothingLost(databases - {name}, live, retired, place, lived)
  {
  }

  lemma LoadKeeps(databases: map<string, Database>, live: string, retired: iset<string>, place: map<nat, string>,
                  lived: map<nat, Content>, nextOid: nat, name: string, content: Content)
    requires WellNumbered(databases, nextOid, place) && NothingLost(databases, live, retired, place, lived)
    requires name in databases && databases[name].oid !in lived
    ensures WellNumbered(databases[name := databases[name].(content := content)], nextOid, place)
    ensures NothingLost(databases[name := databases[name].(content := content)], live, retired, place, lived)
  {
  }

  lemma WriteKeeps(databases: map<string, Database>, live: string, retired: iset<string>, place: map<nat, string>,
                   lived: map<nat, Content>, nextOid: nat, content: Content)
    requires WellNumbered(databases, nextOid, place) && NothingLost(databases, live, retired, place, lived)
    requires live in databases
    ensures WellNumbered(databases[live := databases[live].(content := content)], nextOid, place)
    ensures NothingLost(databases[live := databases[live].(content := content)], live, retired, place,
                        lived[databases[live].oid := content])
  {
  }
}
