/**
 The local storage root and the operations of internal/backup/engine.go that move its
 top-level entries: cleanup of scratch directories, snapshot, staging and the swap of a
 staged tree for the live one.

 The root is a directory; the engine's own working directories (".varya-*") live inside
 it beside the installation's entries.  Every file-system call is one step whose outcome is
 added to `visited`, so "a crash after any step" is a statement about every visited state.
 */
module StorageRoot {

  import opened Storage

  datatype Entry = File(content: Bytes) | Dir(children: Listing)
  type Listing = map<string, Entry>

  const SNAP_PREFIX := ".varya-snap-"
  const STAGE_PREFIX := ".varya-stage-"
  const RETIRED_PREFIX := ".varya-retired-"

  predicate Retired(name: string) {
    RETIRED_PREFIX <= name
  }

  predicate Scratch(name: string) {
    SNAP_PREFIX <= name || STAGE_PREFIX <= name
  }

  lemma PrefixKinds(name: string)
    ensures Retired(name) || Scratch(name) ==> Internal(name)
    ensures !(Retired(name) && Scratch(name))
  {
    if Retired(name) { assert name[7] == 'r'; }
    if Scratch(name) { assert name[7] == 's'; }
  }

  /** The installation's own entries. */
  function Visible(root: Listing): Listing {
    map n | n in root && !Internal(n) :: root[n]
  }

  function Restrict(m: Listing, names: set<string>): Listing {
    map n | n in m && n in names :: m[n]
  }

  /** The children of a directory entry, none for a name that is not one. */
  function Children(root: Listing, dir: string): Listing {
    if dir in root && root[dir].Dir? then root[dir].children else map[]
  }

  /** An entry is still there: in the root, or in the retired directory of the swap. */
  ghost predicate Intact(state: Listing, retired: string, name: string, entry: Entry) {
    || (name in state && state[name] == entry)
    || (name in Children(state, retired) && Children(state, retired)[name] == entry)
  }

  /** Every entry that was live before the swap survives in this state. */
  ghost predicate LiveSurvives(before: Listing, retired: string, state: Listing) {
    forall n :: n in Visible(before) ==> Intact(state, retired, n, before[n])
  }

  /** Working directories other than the two of the swap are as they were, and there are no new ones. */
  ghost predicate OthersKept(before: Listing, mine: set<string>, state: Listing) {
    && (forall n :: n in before && Internal(n) && n !in mine ==> n in state && state[n] == before[n])
    && (forall n :: n in state && Internal(n) && n !in mine ==> n in before)
  }

  /** Rename replaces a file by a file, and otherwise needs the target name to be free. */
  predicate CanLand(root: Listing, name: string, entry: Entry) {
    name !in root || (root[name].File? && entry.File?)
  }

  // ----- the states of a swap, as functions of what has been moved so far

  /** `moved` is set aside in the retired directory. */
  function SetAside(before: Listing, retired: string, moved: set<string>): Listing {
    (before - moved)[retired := Dir(Restrict(before, moved))]
  }

  /** On top of that, the staged entries in `landed` are in place. */
  function WithLanded(before: Listing, retired: string, stage: string, landed: set<string>): Listing {
    var staged := Children(before, stage);
    (SetAside(before, retired, Visible(before).Keys) + Restrict(staged, landed))[stage := Dir(staged - landed)]
  }

  /** What the faults of one swap are. */
  datatype Faults = Faults(
    mkdir: bool,                    // the retired directory cannot be created
    listLive: bool,                 // ReadDir(root)
    asideFailsAt: int,              // index of the first failing rename aside, -1 for none
    listStage: bool,                // ReadDir(stage)
    landingFailsAt: int,            // index of the first failing rename into place
    leftovers: map<string, Entry>,  // what a failing RemoveAll leaves behind, by name
    back: set<string>)              // names whose rename back fails

  /** No step a swap needs fails. */
  predicate Completes(root: Listing, stage: string, f: Faults) {
    && !f.mkdir && !f.listLive && !f.listStage
    && !(0 <= f.asideFailsAt < |Visible(root)|)
    && !(0 <= f.landingFailsAt < |Children(root, stage)|)
  }

  datatype Result = Swapped | Failed(stuck: set<string>)

  class Root {
    var entries: Listing
    ghost var visited: set<Listing>   // the states since the current operation began

    constructor (initial: Listing)
      ensures entries == initial
    {
      entries := initial;
      visited := {initial};
    }

    ghost predicate Valid()
      reads this
    {
      entries in visited
    }

    method Become(next: Listing)
      modifies this
      ensures entries == next && visited == old(visited) + {next}
    {
      entries := next;
      visited := visited + {next};
    }

    /** os.RemoveAll; when it fails it may leave part of the entry behind. */
    method RemoveAll(name: string, leftovers: map<string, Entry>)
      modifies this
      ensures visited == old(visited) + {entries}
      ensures entries == Removed(old(entries), name, leftovers)
    {
      Become(Removed(entries, name, leftovers));
    }

    /** Renames one entry from the retired directory back into the root. */
    method RestoreOne(name: string, ghost stage: string, retired: string, back: set<string>,
                      ghost before: Listing, ghost start: Listing, ghost all: set<string>, ghost restored: set<string>)
      returns (ok: bool)
      requires Valid() && Rollable(before, start, stage, retired, all)
      requires name in all && restored <= all && name !in restored
      requires entries == PutBack(before, start, retired, all, restored)
      modifies this
      ensures Valid() && ok == (name !in back && CanLand(start, name, before[name]))
      ensures !ok ==> entries == old(entries) && visited == old(visited)
      ensures ok ==> visited == old(visited) + {entries} && Safe(before, stage, retired, entries)
      ensures ok ==> entries == PutBack(before, start, retired, all, restored + {name})
    {
      PutBackOne(before, start, stage, retired, all, restored, name);
      var entry := Children(entries, retired)[name];
      ok := name !in back && CanLand(entries, name, entry);
      if ok {
        Become(entries[name := entry][retired := Dir(Children(entries, retired) - {name})]);
        PutBackSafe(before, start, stage, retired, all, restored + {name});
      }
    }

    /** Puts the entries set aside back; the result is what could not be put back. */
    method Rollback(moved: set<string>, ghost stage: string, retired: string, back: set<string>, ghost before: Listing)
      returns (stuck: set<string>)
      requires Valid() && Rollable(before, entries, stage, retired, moved)
      modifies this
      ensures Valid()
      ensures forall state :: state in visited ==> state in old(visited) || Safe(before, stage, retired, state)
      ensures stuck <= moved
      ensures entries == PutBack(before, old(entries), retired, moved, moved - stuck)
      ensures forall n :: n in moved ==> (n in stuck <==> n in back || !CanLand(old(entries), n, before[n]))
    {
      hide PutBack, Safe, Rollable, CanLand;
      stuck := {};
      ghost var start := entries;
      var todo := moved;
      PutBackNone(before, start, stage, retired, moved);
      assert moved - todo - stuck == {};
      while todo != {}
        invariant Valid() && todo <= moved && stuck <= moved - todo
        invariant entries == PutBack(before, start, retired, moved, moved - todo - stuck)
        invariant forall n :: n in moved - todo ==> (n in stuck <==> n in back || !CanLand(start, n, before[n]))
        invariant forall state :: state in visited ==> state in old(visited) || Safe(before, stage, retired, state)
      {
        var name :| name in todo;
        ghost var restored := moved - todo - stuck;
        var ok := RestoreOne(name, stage, retired, back, before, start, moved, restored);
        todo := todo - {name};
        if ok {
          assert moved - todo - stuck == restored + {name};
        } else {
          stuck := stuck + {name};
          assert moved - todo - stuck == restored;
        }
      }
      assert moved - todo - stuck == moved - stuck;
    }

    method MoveOneAside(name: string, ghost stage: string, retired: string, ghost before: Listing,
                        ghost moved: set<string>)
      requires Swappable(before, stage, retired) && moved <= Visible(before).Keys
      requires name in Visible(before) && name !in moved && entries == SetAside(before, retired, moved)
      modifies this
      ensures entries == SetAside(before, retired, moved + {name}) && visited == old(visited) + {entries}
      ensures Safe(before, stage, retired, entries)
    {
      SetAsideOne(before, stage, retired, moved, name);
      Become((entries - {name})[retired := Dir(Children(entries, retired)[name := entries[name]])]);
      SetAsideSafe(before, stage, retired, moved + {name});
    }

    /** Renames the live entries into the retired directory, up to the first failure. */
    method MoveAside(ghost stage: string, retired: string, failsAt: int, ghost before: Listing)
      returns (moved: set<string>, ok: bool)
      requires Valid() && Swappable(before, stage, retired) && entries == SetAside(before, retired, {})
      modifies this
      ensures Valid()
      ensures moved <= Visible(before).Keys && |moved| == if ok then |Visible(before)| else failsAt
      ensures ok ==> moved == Visible(before).Keys
      ensures ok <==> !(0 <= failsAt < |Visible(before)|)
      ensures entries == SetAside(before, retired, moved)
      ensures forall state :: state in visited ==> state in old(visited) || Safe(before, stage, retired, state)
    {
      hide Safe, SetAside;
      moved, ok := {}, true;
      SetAsideNone(before, retired);
      SetAsideVisible(before, retired);
      var todo := Visible(entries).Keys;
      ghost var all := todo;
      var index := 0;
      while todo != {} && ok
        invariant Valid() && todo <= all && moved == all - todo
        invariant index + |todo| == |all|
        invariant if ok then !(0 <= failsAt < index) else failsAt == index && todo != {}
        invariant entries == SetAside(before, retired, moved)
        invariant forall state :: state in visited ==> state in old(visited) || Safe(before, stage, retired, state)
        decreases todo, ok
      {
        var name :| name in todo;
        if index == failsAt {
          ok := false;
        } else {
          MoveOneAside(name, stage, retired, before, moved);
          todo, moved, index := todo - {name}, moved + {name}, index + 1;
        }
      }
      SizeOfRest(all, todo);
    }

    method LandOneEntry(name: string, stage: string, ghost retired: string, ghost before: Listing,
                        ghost landed: set<string>)
      requires Swappable(before, stage, retired) && landed <= before[stage].children.Keys
      requires name in before[stage].children && name !in landed
      requires entries == WithLanded(before, retired, stage, landed)
      modifies this
      ensures entries == WithLanded(before, retired, stage, landed + {name}) && visited == old(visited) + {entries}
      ensures Safe(before, stage, retired, entries)
    {
      LandOne(before, stage, retired, landed, name);
      Become(entries[name := Children(entries, stage)[name]][stage := Dir(Children(entries, stage) - {name})]);
      LandSafe(before, stage, retired, landed + {name});
    }

    /** Renames the staged entries into place, up to the first failure. */
    method Land(stage: string, ghost retired: string, failsAt: int, ghost before: Listing)
      returns (landed: set<string>, ok: bool)
      requires Valid() && Swappable(before, stage, retired)
      requires entries == SetAside(before, retired, Visible(before).Keys)
      modifies this
      ensures Valid()
      ensures landed <= before[stage].children.Keys && |landed| == if ok then |before[stage].children| else failsAt
      ensures ok ==> landed == before[stage].children.Keys
      ensures ok <==> !(0 <= failsAt < |before[stage].children|)
      ensures entries == WithLanded(before, retired, stage, landed)
      ensures forall state :: state in visited ==> state in old(visited) || Safe(before, stage, retired, state)
    {
      hide Safe, WithLanded, SetAside;
      landed, ok := {}, true;
      LandNone(before, stage, retired);
      var todo := Children(entries, stage).Keys;
      var index := 0;
      while todo != {} && ok
        invariant Valid() && todo <= before[stage].children.Keys && landed == before[stage].children.Keys - todo
        invariant index + |todo| == |before[stage].children|
        invariant if ok then !(0 <= failsAt < index) else failsAt == index && todo != {}
        invariant entries == WithLanded(before, retired, stage, landed)
        invariant forall state :: state in visited ==> state in old(visited) || Safe(before, stage, retired, state)
        decreases todo, ok
      {
        var name :| name in todo;
        if index == failsAt {
          ok := false;
        } else {
          LandOneEntry(name, stage, retired, before, landed);
          todo, landed, index := todo - {name}, landed + {name}, index + 1;
        }
      }
      SizeOfRest(before[stage].children.Keys, todo);
    }

    /** Pulls the staged entries that already landed out of the way again. */
    method PullOut(landed: set<string>, leftovers: map<string, Entry>,
                   ghost stage: string, ghost retired: string, ghost before: Listing)
      requires Valid() && Swappable(before, stage, retired) && landed <= before[stage].children.Keys
      requires entries == WithLanded(before, retired, stage, landed)
      modifies this
      ensures Valid()
      ensures entries == RemovedAll(old(entries), landed, leftovers)
      ensures forall state :: state in visited ==> state in old(visited) || Safe(before, stage, retired, state)
    {
      ghost var start := entries;
      var todo := landed;
      assert landed - todo == {};
      RemovedNone(start, leftovers);
      while todo != {}
        invariant Valid() && todo <= landed && entries == RemovedAll(start, landed - todo, leftovers)
        invariant forall state :: state in visited ==> state in old(visited) || Safe(before, stage, retired, state)
      {
        var name :| name in todo;
        RemovedOne(start, landed - todo, name, leftovers);
        RemoveAll(name, leftovers);
        assert landed - (todo - {name}) == (landed - todo) + {name};
        todo := todo - {name};
        RemovedSafe(before, stage, retired, landed, landed - todo, leftovers);
      }
      assert landed - todo == landed;
    }

    /** A rename aside, or the listing of the stage, failed. */
    method FailAside(moved: set<string>, stage: string, retired: string, f: Faults, ghost before: Listing)
      returns (r: Result)
      requires Valid() && Swappable(before, stage, retired) && moved <= Visible(before).Keys
      requires entries == SetAside(before, retired, moved)
      modifies this
      ensures Valid() && r.Failed? && FailedFrom(before, entries, retired, r.stuck, {}, map[])
      ensures OthersKept(before, {stage, retired}, entries)
      ensures Blamed(before, r.stuck, moved, f.back, {}, map[])
      ensures forall state :: state in visited ==> state in old(visited) || Safe(before, stage, retired, state)
    {
      SetAsideSafe(before, stage, retired, moved);
      ghost var start := entries;
      var stuck := Rollback(moved, stage, retired, f.back, before);
      PrefixKinds(retired);
      RolledBack(before, start, stage, retired, moved, stuck, {}, map[]);
      r := Failed(stuck);
    }

    /** A rename into place failed. */
    method FailLanding(landed: set<string>, stage: string, retired: string, f: Faults, ghost before: Listing)
      returns (r: Result)
      requires Valid() && Swappable(before, stage, retired) && landed <= before[stage].children.Keys
      requires entries == WithLanded(before, retired, stage, landed)
      modifies this
      ensures Valid() && r.Failed? && FailedFrom(before, entries, retired, r.stuck, landed, f.leftovers)
      ensures OthersKept(before, {stage, retired}, entries)
      ensures Blamed(before, r.stuck, Visible(before).Keys, f.back, landed, f.leftovers)
      ensures forall state :: state in visited ==> state in old(visited) || Safe(before, stage, retired, state)
    {
      PullOut(landed, f.leftovers, stage, retired, before);
      ghost var start := entries;
      var moved := Children(entries, retired).Keys;
      RemovedSafe(before, stage, retired, landed, landed, f.leftovers);
      LandVisible(before, stage, retired, landed);
      assert moved == Visible(before).Keys;
      var stuck := Rollback(moved, stage, retired, f.back, before);
      RolledBack(before, start, stage, retired, moved, stuck, landed, f.leftovers);
      r := Failed(stuck);
    }

    /**
     Engine.swapStorage.  `risk` collects the states before the success point, every one of
     which a crash may leave; `moved` are the live entries set aside and `landed` the staged
     entries in place when a step failed.
     */
    method SwapStorage(stage: string, retired: string, f: Faults)
      returns (r: Result, ghost moved: set<string>, ghost landed: set<string>, ghost risk: set<Listing>)
      requires Swappable(entries, stage, retired)
      modifies this
      ensures Valid() && OthersKept(old(entries), {stage, retired}, entries)
      // before the success point, and throughout a failing swap, no live entry is lost
      ensures forall state :: state in risk ==> Safe(old(entries), stage, retired, state)
      // success leaves exactly the staged entries, in every state from the success point on
      ensures r.Swapped? ==> forall state :: state in visited - risk || state == entries ==>
                Visible(state) == Children(old(entries), stage) && OthersKept(old(entries), {stage, retired}, state)
      ensures r.Swapped? ==> forall n :: n in {stage, retired} && n in entries ==> n in f.leftovers
      // a failure says which entries could not be put back, and leaves the tree as it was or not accordingly
      ensures r.Failed? ==>
                && risk == visited && FailedFrom(old(entries), entries, retired, r.stuck, landed, f.leftovers)
                && Blamed(old(entries), r.stuck, moved, f.back, landed, f.leftovers)
                && Reached(old(entries), stage, f, moved, landed)
      // it succeeds exactly when no step it needs fails
      ensures r.Swapped? <==> Completes(old(entries), stage, f)
    {
      ghost var before := entries;
      moved, landed := {}, {};
      var ok := BeginSwap(stage, retired, f);
      if !ok {
        return Failed({}), moved, landed, visited;
      }
      var aside;
      aside, ok := MoveAside(stage, retired, f.asideFailsAt, before);
      if !ok || f.listStage {
        r := FailAside(aside, stage, retired, f, before);
        return r, aside, landed, visited;
      }
      r, landed, risk := LandStaged(stage, retired, f, before);
      moved := Visible(before).Keys;
    }

    /** The second half of the swap: everything live is set aside. */
    method LandStaged(stage: string, retired: string, f: Faults, ghost before: Listing)
      returns (r: Result, ghost landed: set<string>, ghost risk: set<Listing>)
      requires Valid() && Swappable(before, stage, retired)
      requires entries == SetAside(before, retired, Visible(before).Keys)
      modifies this
      ensures Valid() && OthersKept(before, {stage, retired}, entries)
      ensures forall state :: state in risk ==> state in old(visited) || Safe(before, stage, retired, state)
      ensures r.Swapped? ==> forall state :: state in visited - risk || state == entries ==>
                Visible(state) == before[stage].children && OthersKept(before, {stage, retired}, state)
      ensures r.Swapped? ==> forall n :: n in {stage, retired} && n in entries ==> n in f.leftovers
      ensures r.Failed? ==>
                && risk == visited && FailedFrom(before, entries, retired, r.stuck, landed, f.leftovers)
                && Blamed(before, r.stuck, Visible(before).Keys, f.back, landed, f.leftovers)
                && landed <= before[stage].children.Keys && |landed| == f.landingFailsAt
      ensures r.Swapped? <==> !(0 <= f.landingFailsAt < |before[stage].children|)
    {
      SetAsideSafe(before, stage, retired, Visible(before).Keys);
      var inPlace, ok := Land(stage, retired, f.landingFailsAt, before);
      if !ok {
        LandSafe(before, stage, retired, inPlace);
        r := FailLanding(inPlace, stage, retired, f, before);
        return r, inPlace, visited;
      }
      risk := visited;
      FinishSwap(stage, retired, f, before);
      return Swapped, inPlace, risk;
    }

    /** Creates the retired directory and lists the live entries. */
    method BeginSwap(stage: string, retired: string, f: Faults) returns (ok: bool)
      requires Swappable(entries, stage, retired)
      modifies this
      ensures Valid() && forall state :: state in visited ==> Safe(old(entries), stage, retired, state)
      ensures ok == (!f.mkdir && !f.listLive)
      ensures ok ==> entries == SetAside(old(entries), retired, {})
      ensures !ok ==> FailedFrom(old(entries), entries, retired, {}, {}, f.leftovers)
    {
      ghost var before := entries;
      visited := {entries};
      ok := !f.mkdir && !f.listLive;
      if !f.mkdir {
        SetAsideNone(before, retired);
        Become(entries[retired := Dir(map[])]);
        SetAsideSafe(before, stage, retired, {});
        SetAsideVisible(before, retired);
      }
    }

    /** Past the success point: the retired copy and the empty stage may go. */
    method FinishSwap(stage: string, retired: string, f: Faults, ghost before: Listing)
      requires Swappable(before, stage, retired)
      requires entries == WithLanded(before, retired, stage, before[stage].children.Keys)
      modifies this
      ensures Valid() && forall n :: n in {stage, retired} && n in entries ==> n in f.leftovers
      ensures forall state :: state in visited - old(visited) || state == entries ==>
                Visible(state) == before[stage].children && OthersKept(before, {stage, retired}, state)
    {
      LandVisible(before, stage, retired, before[stage].children.Keys);
      LandSafe(before, stage, retired, before[stage].children.Keys);
      assert Restrict(before[stage].children, before[stage].children.Keys) == before[stage].children;
      ClearOwn(retired, stage, retired, f, before);
      ClearOwn(stage, stage, retired, f, before);
    }

    method ClearOwn(name: string, ghost stage: string, ghost retired: string, f: Faults, ghost before: Listing)
      requires Swappable(before, stage, retired) && (name == stage || name == retired)
      requires Visible(entries) == before[stage].children && OthersKept(before, {stage, retired}, entries)
      modifies this
      ensures Valid() && visited == old(visited) + {entries}
      ensures (name in entries ==> name in f.leftovers) && entries.Keys <= old(entries).Keys
      ensures Visible(entries) == before[stage].children && OthersKept(before, {stage, retired}, entries)
    {
      PrefixKinds(name);
      ClearedScratch(before, entries, stage, retired, name, f.leftovers);
      RemoveAll(name, f.leftovers);
    }

    // ----- the other operations on the root

    /** cleanupInternalDirs: drops what crashed runs left of snapshots and stages. */
    method CleanupInternalDirs(leftovers: map<string, Entry>)
      modifies this
      ensures Valid() && Undisturbed(old(entries), entries)
      ensures forall n :: n in old(entries) ==> (n in entries <==> !Scratch(n) || n in leftovers)
      ensures forall n :: n in entries ==> n in old(entries)
      ensures forall n :: n in entries && (SNAP_PREFIX <= n || STAGE_PREFIX <= n) ==> n in leftovers
      ensures forall n :: n in old(entries) && RETIRED_PREFIX <= n ==> n in entries && entries[n] == old(entries)[n]
    {
      ghost var before := entries;
      visited := {entries};
      var todo := set n | n in entries && Scratch(n);
      while todo != {}
        invariant Valid() && Undisturbed(before, entries)
        invariant forall n :: n in todo ==> Scratch(n)
        invariant forall n :: n in before ==> (n in entries <==> !Scratch(n) || n in leftovers || n in todo)
        invariant forall n :: n in entries ==> n in before
      {
        var name :| name in todo;
        PrefixKinds(name);
        RemoveAll(name, leftovers);
        todo := todo - {name};
      }
    }

    /** Creates a snapshot or staging directory under a fresh name. */
    method MakeScratch(name: string, children: Listing)
      requires Scratch(name) && name !in entries
      modifies this
      ensures Valid() && Undisturbed(old(entries), entries) && entries == old(entries)[name := Dir(children)]
    {
      PrefixKinds(name);
      visited := {};
      Become(entries[name := Dir(children)]);
    }

    /** Removes a snapshot or staging directory again. */
    method DropScratch(name: string, leftovers: map<string, Entry>)
      requires Scratch(name)
      modifies this
      ensures Valid() && Undisturbed(old(entries), entries)
      ensures entries == Removed(old(entries), name, leftovers)
    {
      PrefixKinds(name);
      visited := {};
      RemoveAll(name, leftovers);
    }

    /**
     Any run of cleanups, snapshots, stagings and swaps; a temporary name is always fresh. `states` are the
     roots between the commands.
     */
    method Run(commands: seq<Command>) returns (ghost states: seq<Listing>)
      modifies this
      ensures RetiredKept(old(entries), entries)
      ensures |states| == |commands| + 1 && states[0] == old(entries) && states[|commands|] == entries
      ensures forall i :: 0 <= i < |commands| ==> Effect(commands[i], states[i], states[i + 1])
    {
      hide Undisturbed, Visible, Completes;
      states := [entries];
      for i := 0 to |commands|
        invariant |states| == i + 1 && states[0] == old(entries) && states[i] == entries
        invariant RetiredKept(old(entries), entries)
        invariant forall j :: 0 <= j < i ==> Effect(commands[j], states[j], states[j + 1])
      {
        Perform(commands[i]);
        states := states + [entries];
      }
    }

    /** One command, if its names are usable. */
    method Perform(c: Command)
      modifies this
      ensures RetiredKept(old(entries), entries) && Effect(c, old(entries), entries)
    {
      ghost var before := entries;
      match c
      case Cleanup(leftovers) =>
        CleanupInternalDirs(leftovers);
      case Make(name, children) =>
        if Scratch(name) && name !in entries {
          MakeScratch(name, children);
        }
      case Drop(name, leftovers) =>
        if Scratch(name) {
          DropScratch(name, leftovers);
        }
      case Swap(stage, retired, faults) =>
        if Swappable(entries, stage, retired) {
          var r, _, _, _ := SwapStorage(stage, retired, faults);
          OthersCoverRetired(before, stage, retired, entries);
        }
    }
  }

  /** What a command does to the root. */
  ghost predicate Effect(c: Command, before: Listing, after: Listing) {
    match c
    case Cleanup(leftovers) =>
      && Visible(after) == Visible(before)
      && forall n :: n in before ==> (n in after <==> !Scratch(n) || n in leftovers)
    case Make(name, children) =>
      after == if Scratch(name) && name !in before then before[name := Dir(children)] else before
    case Drop(name, leftovers) =>
      if Scratch(name)
      then after - {name} == before - {name} && (name in after ==> name in before && name in leftovers)
      else after == before
    case Swap(stage, retired, faults) =>
      if !Swappable(before, stage, retired) then after == before
      else
        && OthersKept(before, {stage, retired}, after)
        && (Completes(before, stage, faults) ==> Visible(after) == Children(before, stage))
  }

  datatype Command =
    | Cleanup(leftovers: map<string, Entry>)
    | Make(name: string, children: Listing)
    | Drop(name: string, leftovers: map<string, Entry>)
    | Swap(stage: string, retired: string, faults: Faults)

  /** The live entries and every retired directory are as they were. */
  ghost predicate Undisturbed(before: Listing, state: Listing) {
    Visible(before) == Visible(state) && RetiredKept(before, state)
  }

  ghost predicate RetiredKept(before: Listing, state: Listing) {
    forall n :: n in before && Retired(n) ==> n in state && state[n] == before[n]
  }

  lemma OthersCoverRetired(before: Listing, stage: string, retired: string, state: Listing)
    requires Swappable(before, stage, retired) && OthersKept(before, {stage, retired}, state)
    ensures RetiredKept(before, state)
  {
    PrefixKinds(stage);
    forall n | n in before && Retired(n) ensures n in state && state[n] == before[n] {
      PrefixKinds(n);
    }
  }

  function Removed(root: Listing, name: string, leftovers: map<string, Entry>): Listing {
    if name in root && name in leftovers then root[name := leftovers[name]] else root - {name}
  }

  // ----- rolling back

  /** The entries `all` sit in the retired directory, every other live entry in the root. */
  ghost predicate Rollable(before: Listing, start: Listing, stage: string, retired: string, all: set<string>) {
    && OthersKept(before, {stage, retired}, start)
    && Internal(retired) && all <= Visible(before).Keys
    && retired in start && start[retired] == Dir(Restrict(before, all))
    && forall n :: n in Visible(before) && n !in all ==> n in start && start[n] == before[n]
  }

  /** The root once the entries `restored` are back. */
  function PutBack(before: Listing, start: Listing, retired: string, all: set<string>, restored: set<string>): Listing {
    (start + Restrict(before, restored))[retired := Dir(Restrict(before, all - restored))]
  }

  /** What must hold in every state a crash can leave. */
  ghost predicate Safe(before: Listing, stage: string, retired: string, state: Listing) {
    LiveSurvives(before, retired, state) && OthersKept(before, {stage, retired}, state)
  }

  lemma PutBackNone(before: Listing, start: Listing, stage: string, retired: string, all: set<string>)
    requires Rollable(before, start, stage, retired, all)
    ensures start == PutBack(before, start, retired, all, {})
    ensures all <= before.Keys
  {
    assert Restrict(before, {}) == map[];
    assert all - {} == all;
  }

  lemma PutBackSafe(before: Listing, start: Listing, stage: string, retired: string, all: set<string>,
                    restored: set<string>)
    requires Rollable(before, start, stage, retired, all) && restored <= all
    ensures Safe(before, stage, retired, PutBack(before, start, retired, all, restored))
  {
    var state := PutBack(before, start, retired, all, restored);
    assert Children(state, retired) == Restrict(before, all - restored);
    forall n | n in Visible(before) ensures Intact(state, retired, n, before[n]) {
    }
  }

  lemma PutBackOne(before: Listing, start: Listing, stage: string, retired: string, all: set<string>,
                   restored: set<string>, name: string)
    requires Rollable(before, start, stage, retired, all) && restored <= all
    requires name in all && name !in restored
    ensures var state := PutBack(before, start, retired, all, restored);
            && name in Children(state, retired) && Children(state, retired)[name] == before[name]
            && state[name := before[name]][retired := Dir(Children(state, retired) - {name})]
               == PutBack(before, start, retired, all, restored + {name})
            && (CanLand(state, name, before[name]) <==> CanLand(start, name, before[name]))
  {
    var state := PutBack(before, start, retired, all, restored);
    assert name != retired;
    RestrictLess(before, all, restored, name);
    RestrictMore(before, restored, name);
    UpdateThrough(start, Restrict(before, restored), name, before[name], retired,
                  state[retired], Dir(Restrict(before, all - (restored + {name}))));
  }

  lemma UpdateThrough(m: Listing, r: Listing, name: string, entry: Entry, dir: string, x: Entry, y: Entry)
    requires name != dir
    ensures (m + r)[dir := x][name := entry][dir := y] == (m + r[name := entry])[dir := y]
  {
  }

  lemma RestrictMore(m: Listing, names: set<string>, name: string)
    requires name in m
    ensures Restrict(m, names + {name}) == Restrict(m, names)[name := m[name]]
  {
  }

  lemma RestrictLess(m: Listing, all: set<string>, names: set<string>, name: string)
    ensures Restrict(m, all - names) - {name} == Restrict(m, all - (names + {name}))
  {
  }

  // ----- setting aside

  /** What swapStorage relies on: a staged directory without reserved names, a fresh retired name. */
  predicate Swappable(root: Listing, stage: string, retired: string) {
    && STAGE_PREFIX <= stage && stage in root && root[stage].Dir?
    && (forall n :: n in root[stage].children ==> !Internal(n))
    && Retired(retired) && retired !in root
  }

  lemma SetAsideNone(before: Listing, retired: string)
    ensures before[retired := Dir(map[])] == SetAside(before, retired, {})
  {
    assert Restrict(before, {}) == map[];
  }

  lemma SetAsideOne(before: Listing, stage: string, retired: string, moved: set<string>, name: string)
    requires Swappable(before, stage, retired) && moved <= Visible(before).Keys
    requires name in Visible(before) && name !in moved
    ensures var state := SetAside(before, retired, moved);
            && name in state && state[name] == before[name]
            && (state - {name})[retired := Dir(Children(state, retired)[name := before[name]])]
               == SetAside(before, retired, moved + {name})
  {
    PrefixKinds(retired);
    RestrictMore(before, moved, name);
  }

  lemma SetAsideSafe(before: Listing, stage: string, retired: string, moved: set<string>)
    requires Swappable(before, stage, retired) && moved <= Visible(before).Keys
    ensures Safe(before, stage, retired, SetAside(before, retired, moved))
    ensures Rollable(before, SetAside(before, retired, moved), stage, retired, moved)
  {
    PrefixKinds(retired);
    var state := SetAside(before, retired, moved);
    forall n | n in Visible(before) ensures Intact(state, retired, n, before[n]) {
    }
  }

  lemma SetAsideVisible(before: Listing, retired: string)
    requires Retired(retired)
    ensures Visible(SetAside(before, retired, {})) == Visible(before)
  {
    PrefixKinds(retired);
  }

  lemma SizeOfRest(all: set<string>, rest: set<string>)
    requires rest <= all
    ensures |all - rest| == |all| - |rest|
  {
  }

  // ----- landing

  lemma LandNone(before: Listing, stage: string, retired: string)
    requires Swappable(before, stage, retired)
    ensures var state := SetAside(before, retired, Visible(before).Keys);
            Children(state, stage) == before[stage].children && state == WithLanded(before, retired, stage, {})
  {
    PrefixKinds(stage);
    PrefixKinds(retired);
    assert Restrict(before[stage].children, {}) == map[];
    assert before[stage].children - {} == before[stage].children;
  }

  lemma LandOne(before: Listing, stage: string, retired: string, landed: set<string>, name: string)
    requires Swappable(before, stage, retired) && landed <= before[stage].children.Keys
    requires name in before[stage].children && name !in landed
    ensures var state := WithLanded(before, retired, stage, landed);
            var staged := before[stage].children;
            && name !in state && name in Children(state, stage) && Children(state, stage)[name] == staged[name]
            && state[name := staged[name]][stage := Dir(Children(state, stage) - {name})]
               == WithLanded(before, retired, stage, landed + {name})
  {
    PrefixKinds(stage);
    PrefixKinds(retired);
    var staged := before[stage].children;
    var state := WithLanded(before, retired, stage, landed);
    RestrictMore(staged, landed, name);
    assert (staged - landed) - {name} == staged - (landed + {name});
    UpdateThrough(SetAside(before, retired, Visible(before).Keys), Restrict(staged, landed), name, staged[name], stage,
                  state[stage], Dir(staged - (landed + {name})));
  }

  lemma LandSafe(before: Listing, stage: string, retired: string, landed: set<string>)
    requires Swappable(before, stage, retired) && landed <= before[stage].children.Keys
    ensures Safe(before, stage, retired, WithLanded(before, retired, stage, landed))
  {
    PrefixKinds(stage);
    PrefixKinds(retired);
    var state := WithLanded(before, retired, stage, landed);
    assert Children(state, retired) == Restrict(before, Visible(before).Keys);
    forall n | n in Visible(before) ensures Intact(state, retired, n, before[n]) {
    }
  }

  lemma LandVisible(before: Listing, stage: string, retired: string, landed: set<string>)
    requires Swappable(before, stage, retired) && landed <= before[stage].children.Keys
    ensures Visible(WithLanded(before, retired, stage, landed)) == Restrict(before[stage].children, landed)
  {
    PrefixKinds(stage);
    PrefixKinds(retired);
  }

  // ----- pulling out

  function RemovedAll(root: Listing, names: set<string>, leftovers: map<string, Entry>): Listing {
    map n | n in root && (n !in names || n in leftovers) :: if n in names then leftovers[n] else root[n]
  }

  lemma RemovedNone(root: Listing, leftovers: map<string, Entry>)
    ensures RemovedAll(root, {}, leftovers) == root
  {
  }

  lemma RemovedOne(root: Listing, names: set<string>, name: string, leftovers: map<string, Entry>)
    requires name !in names
    ensures Removed(RemovedAll(root, names, leftovers), name, leftovers) == RemovedAll(root, names + {name}, leftovers)
  {
  }

  lemma RemovedSafe(before: Listing, stage: string, retired: string, landed: set<string>, names: set<string>,
                    leftovers: map<string, Entry>)
    requires Swappable(before, stage, retired) && names <= landed <= before[stage].children.Keys
    ensures var state := RemovedAll(WithLanded(before, retired, stage, landed), names, leftovers);
            && Safe(before, stage, retired, state)
            && Rollable(before, state, stage, retired, Visible(before).Keys)
  {
    PrefixKinds(stage);
    PrefixKinds(retired);
    LandSafe(before, stage, retired, landed);
    var state := RemovedAll(WithLanded(before, retired, stage, landed), names, leftovers);
    assert Children(state, retired) == Restrict(before, Visible(before).Keys);
    forall n | n in Visible(before) ensures Intact(state, retired, n, before[n]) {
    }
  }

  // ----- the end of a swap

  /** Removing the retired or the staged directory shows in no live entry. */
  lemma ClearedScratch(before: Listing, state: Listing, stage: string, retired: string, name: string,
                       leftovers: map<string, Entry>)
    requires Internal(name) && name in {stage, retired} && OthersKept(before, {stage, retired}, state)
    ensures Visible(Removed(state, name, leftovers)) == Visible(state)
    ensures OthersKept(before, {stage, retired}, Removed(state, name, leftovers))
  {
  }

  /**
   How a failed swap ends: an entry is stuck in the retired directory or back in the root,
   and the tree is as it was exactly when no debris stands under a new name and whatever is
   stuck is hidden by debris that happens to equal it.
   */
  ghost predicate FailedFrom(before: Listing, state: Listing, retired: string, stuck: set<string>,
                             landed: set<string>, leftovers: map<string, Entry>) {
    && stuck <= Visible(before).Keys
    && (forall n :: n in Visible(before) ==>
          if n in stuck then n in Children(state, retired) && Children(state, retired)[n] == before[n]
          else n in state && state[n] == before[n])
    && (Visible(state) == Visible(before) <==> Hidden(before, stuck, landed, leftovers))
  }

  /** Exactly those entries set aside are stuck whose rename back failed or whose name debris of another kind holds. */
  ghost predicate Blamed(before: Listing, stuck: set<string>, moved: set<string>, back: set<string>,
                         landed: set<string>, leftovers: map<string, Entry>) {
    && stuck <= moved <= before.Keys
    && forall n :: n in moved ==>
         (n in stuck <==> n in back || (n in landed && n in leftovers && !(leftovers[n].File? && before[n].File?)))
  }

  /** How far a failing swap came. */
  ghost predicate Reached(before: Listing, stage: string, f: Faults, moved: set<string>, landed: set<string>) {
    && moved <= Visible(before).Keys && landed <= Children(before, stage).Keys
    && (f.mkdir || f.listLive ==> moved == {})
    && (!f.mkdir && !f.listLive ==>
          |moved| == if 0 <= f.asideFailsAt < |Visible(before)| then f.asideFailsAt else |Visible(before)|)
    && |landed| == if f.mkdir || f.listLive || f.listStage || 0 <= f.asideFailsAt < |Visible(before)| then 0
                   else f.landingFailsAt
  }

  ghost predicate Hidden(before: Listing, stuck: set<string>, landed: set<string>, leftovers: map<string, Entry>) {
    && landed * leftovers.Keys <= Visible(before).Keys
    && forall n :: n in stuck && n in before ==> n in landed && n in leftovers && leftovers[n] == before[n]
  }

  /** The root a rollback starts from: unmoved live entries, and debris of landed ones. */
  ghost predicate Cleared(before: Listing, start: Listing, moved: set<string>,
                          landed: set<string>, leftovers: map<string, Entry>) {
    && (forall n :: n in landed ==> !Internal(n))
    && (forall n :: n in landed && n in leftovers ==> n in start && start[n] == leftovers[n])
    && (forall n :: n in start && !Internal(n) ==>
          (n in Visible(before) && n !in moved) || (n in landed && n in leftovers))
  }

  lemma RolledBack(before: Listing, start: Listing, stage: string, retired: string, moved: set<string>,
                   stuck: set<string>,
                   landed: set<string>, leftovers: map<string, Entry>)
    requires Rollable(before, start, stage, retired, moved) && stuck <= moved
    requires Cleared(before, start, moved, landed, leftovers)
    ensures FailedFrom(before, PutBack(before, start, retired, moved, moved - stuck), retired, stuck, landed, leftovers)
  {
    var state := PutBack(before, start, retired, moved, moved - stuck);
    assert moved - (moved - stuck) == stuck;
    assert Children(state, retired) == Restrict(before, stuck);
    if Hidden(before, stuck, landed, leftovers) {
      HiddenIsSame(before, start, stage, retired, moved, stuck, landed, leftovers);
    }
    if Visible(state) == Visible(before) {
      SameIsHidden(before, start, stage, retired, moved, stuck, landed, leftovers);
    }
  }

  lemma HiddenIsSame(before: Listing, start: Listing, stage: string, retired: string, moved: set<string>,
                     stuck: set<string>,
                     landed: set<string>, leftovers: map<string, Entry>)
    requires Rollable(before, start, stage, retired, moved) && stuck <= moved
    requires Cleared(before, start, moved, landed, leftovers) && Hidden(before, stuck, landed, leftovers)
    ensures Visible(PutBack(before, start, retired, moved, moved - stuck)) == Visible(before)
  {
    var state := PutBack(before, start, retired, moved, moved - stuck);
    forall n | n in Visible(before) ensures n in state && state[n] == before[n] {
    }
    forall n | n in Visible(state) ensures n in Visible(before) {
    }
  }

  lemma SameIsHidden(before: Listing, start: Listing, stage: string, retired: string, moved: set<string>,
                     stuck: set<string>,
                     landed: set<string>, leftovers: map<string, Entry>)
    requires Rollable(before, start, stage, retired, moved) && stuck <= moved
    requires Cleared(before, start, moved, landed, leftovers)
    requires Visible(PutBack(before, start, retired, moved, moved - stuck)) == Visible(before)
    ensures Hidden(before, stuck, landed, leftovers)
  {
    var state := PutBack(before, start, retired, moved, moved - stuck);
    forall n | n in landed && n in leftovers ensures n in Visible(before) {
      assert n in Visible(state);
    }
    forall n | n in stuck ensures n in landed && n in leftovers && leftovers[n] == before[n] {
      assert n in Visible(state) && state[n] == start[n];
    }
  }

  /**
   "Nothing stuck" alone does not mean the tree is as it was: a landed entry whose removal
   fails stays in the root under a name the installation never had.
   */
  method NothingStuckIsNotEnough() returns (before: Listing, f: Faults, r: Result, after: Listing)
    ensures Swappable(before, ".varya-stage-1", ".varya-retired-1")
    ensures r == Failed({}) && Visible(after) != Visible(before)
  {
    var staged: Listing := map["a" := File([]), "b" := File([])];
    before := map[".varya-stage-1" := Dir(staged)];
    f := Faults(false, false, -1, false, 1, staged, {});
    var root := new Root(before);
    assert Visible(before) == map[];
    assert staged.Keys == {"a", "b"};
    ghost var moved, landed, risk;
    r, moved, landed, risk := root.SwapStorage(".varya-stage-1", ".varya-retired-1", f);
    after := root.entries;
    assert Children(before, ".varya-stage-1") == staged && |staged| == 2;
    assert |landed| == 1;
    ghost var n :| n in landed;
    assert n in landed * staged.Keys;
    assert r.stuck == {};
  }
}
