/**
 A flat set of files by key, as an archive lists them, and the directory they make: the folders a
 restore creates inside its staging directory.
 */
module Staging {

  import opened ObjectKeys
  import opened Storage
  import opened StorageRoot
  import opened Wrappers

  type Path = seq<string>

  /** The file found by walking down a directory. */
  function Lookup(l: Listing, p: Path): Option<Bytes>
    decreases |p|
  {
    if p == [] || p[0] !in l then None
    else match l[p[0]]
      case File(b) => if |p| == 1 then Some(b) else None
      case Dir(children) => Lookup(children, p[1..])
  }

  function Heads(paths: map<Path, Bytes>): set<string> {
    set p | p in paths && p != [] :: p[0]
  }

  /** What lies in the folder n, by the rest of the path. */
  function Below(paths: map<Path, Bytes>, n: string): map<Path, Bytes> {
    map t | t in (set p | p in paths && |p| > 1 :: p[1..]) && [n] + t in paths :: paths[[n] + t]
  }

  /** The directory of these paths, none longer than `depth`. */
  function Build(paths: map<Path, Bytes>, depth: nat): Listing
    decreases depth, 1
  {
    if depth == 0 then map[] else map n | n in Heads(paths) :: Under(paths, n, depth)
  }

  /** What stands under one name. */
  function Under(paths: map<Path, Bytes>, n: string, depth: nat): Entry
    requires depth > 0
    decreases depth, 0
  {
    if [n] in paths then File(paths[[n]]) else Dir(Build(Below(paths, n), depth - 1))
  }

  /** No path runs through a file. */
  ghost predicate Buildable(paths: map<Path, Bytes>, depth: nat) {
    && (forall p :: p in paths ==> 1 <= |p| <= depth)
    && (forall p, q :: p in paths && q in paths && p <= q ==> p == q)
  }

  ghost function Found(paths: map<Path, Bytes>, p: Path): Option<Bytes> {
    if p in paths then Some(paths[p]) else None
  }

  lemma BelowIsRest(paths: map<Path, Bytes>, n: string, t: Path)
    requires t != []
    ensures Found(Below(paths, n), t) == Found(paths, [n] + t)
  {
    var p := [n] + t;
    assert p[1..] == t;
  }

  lemma BelowIsBuildable(paths: map<Path, Bytes>, depth: nat, n: string)
    requires Buildable(paths, depth) && depth > 0
    ensures Buildable(Below(paths, n), depth - 1)
  {
    forall t | t in Below(paths, n) ensures 1 <= |t| <= depth - 1 {
      assert |[n] + t| == 1 + |t|;
    }
    forall t, u | t in Below(paths, n) && u in Below(paths, n) && t <= u ensures t == u {
      assert [n] + t <= [n] + u;
      assert ([n] + t)[1..] == t && ([n] + u)[1..] == u;
    }
  }

  /** Walking down the directory finds exactly the files it was built from. */
  lemma {:induction false} BuildFinds(paths: map<Path, Bytes>, depth: nat, p: Path)
    requires Buildable(paths, depth)
    ensures Lookup(Build(paths, depth), p) == Found(paths, p)
    decreases depth
  {
    hide Below;
    if depth > 0 && p != [] {
      var n := p[0];
      assert p == [n] + p[1..];
      if n !in Heads(paths) {
        assert p !in paths;
      } else if [n] in paths {
        assert [n] <= p;
        assert p in paths || |p| == 1 ==> p == [n];
      } else {
        BelowIsBuildable(paths, depth, n);
        BuildFinds(Below(paths, n), depth - 1, p[1..]);
        if p[1..] != [] {
          BelowIsRest(paths, n, p[1..]);
        }
      }
    }
  }

  // ----- keys

  /** Files by the segments of their keys. */
  function Paths(files: map<string, Bytes>): map<Path, Bytes> {
    map p | p in (set key | key in files :: Split(key)) && Join(p) in files :: files[Join(p)]
  }

  /** Accepted keys, none a folder on the way to another. */
  ghost predicate Nestable(files: map<string, Bytes>) {
    PrefixFree(files.Keys) && forall key :: key in files ==> ValidKey(key)
  }

  /** The directory tree of an archive's files. */
  function Nest(files: map<string, Bytes>): Listing {
    Build(Paths(files), MAX_KEY_LENGTH + 1)
  }

  /** The directory holds these files and no other. */
  ghost predicate Shows(l: Listing, files: map<string, Bytes>) {
    && (forall key :: key in files ==> Lookup(l, Split(key)) == Some(files[key]))
    && (forall p :: Lookup(l, p).Some? ==> Join(p) in files && p == Split(Join(p)))
  }

  lemma {:induction false} SplitIsShort(s: string)
    ensures |Split(s)| <= |s| + 1
  {
    if s != "" {
      SplitIsShort(s[1..]);
    }
  }

  /** A key whose segments start another key's would be a folder on the way to it. */
  lemma PathsAreFree(keys: set<string>, a: string, b: string)
    requires PrefixFree(keys) && a in keys && b in keys && Split(a) <= Split(b)
    ensures a == b
  {
    hide Split, Join, ProperAncestor;
    JoinSplit(a);
    JoinSplit(b);
    var k := |Split(a)|;
    assert Split(b)[..k] == Split(a) && Split(b)[..|Split(b)|] == Split(b);
    if k < |Split(b)| {
      PrefixIsAncestor(b, k);
      assert false;
    }
  }

  lemma NestIsBuildable(files: map<string, Bytes>)
    requires Nestable(files)
    ensures Buildable(Paths(files), MAX_KEY_LENGTH + 1)
  {
    hide Split, Join, ProperAncestor, PrefixFree;
    forall p | p in Paths(files) ensures 1 <= |p| <= MAX_KEY_LENGTH + 1 {
      var key :| key in files && p == Split(key);
      SplitIsShort(key);
    }
    forall p, q | p in Paths(files) && q in Paths(files) && p <= q ensures p == q {
      var a :| a in files && p == Split(a);
      var b :| b in files && q == Split(b);
      PathsAreFree(files.Keys, a, b);
    }
  }

  /** The staged directory of accepted keys shows exactly their files and holds no reserved name. */
  lemma NestShows(files: map<string, Bytes>)
    requires Nestable(files)
    ensures Shows(Nest(files), files)
    ensures forall n :: n in Nest(files) ==> !Internal(n)
  {
    hide Split, Join, ProperAncestor, PrefixFree, Build, Lookup, ValidKey, Internal;
    NestIsBuildable(files);
    forall key | key in files ensures Lookup(Nest(files), Split(key)) == Some(files[key]) {
      JoinSplit(key);
      BuildFinds(Paths(files), MAX_KEY_LENGTH + 1, Split(key));
    }
    forall p | Lookup(Nest(files), p).Some? ensures Join(p) in files && p == Split(Join(p)) {
      BuildFinds(Paths(files), MAX_KEY_LENGTH + 1, p);
      var key :| key in files && p == Split(key);
      JoinSplit(key);
    }
    forall n | n in Nest(files) ensures !Internal(n) {
      var p := HeadOf(Paths(files), MAX_KEY_LENGTH + 1, n);
      var key :| key in files && p == Split(key);
      ValidKeyIsPlain(key);
      SegmentIsOrdinary(Split(key)[0]);
    }
  }

  lemma HeadOf(paths: map<Path, Bytes>, depth: nat, n: string) returns (p: Path)
    requires n in Build(paths, depth)
    ensures p in paths && p != [] && p[0] == n
  {
    p :| p in paths && p != [] && p[0] == n;
  }

  lemma SegmentIsOrdinary(segment: string)
    requires SegmentOk(segment)
    ensures !Internal(segment)
  {
  }

  /** A root with such a directory as its stage is ready for the swap. */
  lemma StagedIsSwappable(root: Listing, stage: string, retired: string, files: map<string, Bytes>)
    requires Nestable(files)
    requires STAGE_PREFIX <= stage && stage in root && root[stage] == Dir(Nest(files))
    requires Retired(retired) && retired !in root
    ensures Swappable(root, stage, retired)
  {
    hide Nest;
    NestShows(files);
  }
}
