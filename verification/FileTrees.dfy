/** The staging directory of a restore: files and folders by slash-separated path from its root. */
module FileTrees {

  import opened ObjectKeys
  import opened Storage

  /** Every segment of the path is an ordinary name: it cannot climb, escape or name an internal directory. */
  ghost predicate Inside(path: string) {
    forall i :: 0 <= i < |Split(path)| ==> SegmentOk(Split(path)[i])
  }

  lemma ValidKeyIsInside(key: string)
    requires ValidKey(key)
    ensures Inside(key)
    ensures forall a :: ProperAncestor(a, key) ==> Inside(a)
  {
    hide SegmentOk, Clean, Split;
    ValidKeyIsPlain(key);
    forall a | ProperAncestor(a, key) ensures Inside(a) {
      var rest := key[|a| + 1..];
      assert key == a + "/" + rest;
      SplitAt(a, rest);
      forall i | 0 <= i < |Split(a)| ensures SegmentOk(Split(a)[i]) {
        assert Split(a)[i] == Split(key)[i];
      }
    }
  }

  class Tree {
    var files: map<string, Bytes>
    var dirs: set<string>

    constructor ()
      ensures files == map[] && dirs == {}
    {
      files, dirs := map[], {};
    }

    /** Nothing was created outside the root or under a reserved name. */
    ghost predicate Confined()
      reads this
    {
      forall path :: path in files || path in dirs ==> Inside(path)
    }

    /** The files are these keys, the folders exactly those on the way to one of them. */
    ghost predicate FilledFrom(keys: set<string>)
      reads this
    {
      && files.Keys == keys
      && (forall d :: d in dirs <==> OnTheWay(d, keys))
      && (forall key :: key in keys ==> ValidKey(key))
    }

    lemma EmptyIsFilled()
      requires files == map[] && dirs == {}
      ensures FilledFrom({})
    {
    }

    lemma FilledIsConfined(keys: set<string>)
      requires FilledFrom(keys)
      ensures Confined() && files.Keys == keys
    {
      hide Inside, ValidKey, ProperAncestor;
      forall key | key in keys ensures Inside(key) && forall a :: ProperAncestor(a, key) ==> Inside(a) {
        ValidKeyIsInside(key);
      }
    }

    /** os.Root.MkdirAll: creates missing folders from the top, refuses at a file. */
    method MkdirAll(path: string) returns (ok: bool)
      modifies this`dirs
      ensures ok <==> path !in files && forall a :: a in files ==> !ProperAncestor(a, path)
      ensures ok ==> forall d :: d in dirs <==> d in old(dirs) || d == path || ProperAncestor(d, path)
    {
      hide Split, Join, ProperAncestor;
      var segments := Split(path);
      JoinSplit(path);
      assert segments[..|segments|] == segments;
      forall d ensures ProperAncestor(d, path) <==> exists k :: 1 <= k < |segments| && d == Join(segments[..k]) {
        AncestorsArePrefixes(d, path);
      }
      for k := 0 to |segments|
        invariant forall m :: 1 <= m <= k ==> Join(segments[..m]) !in files
        invariant forall d :: d in dirs <==> d in old(dirs) || exists m :: 1 <= m <= k && d == Join(segments[..m])
      {
        var prefix := Join(segments[..k + 1]);
        if prefix in files {
          return false;
        }
        dirs := dirs + {prefix};
      }
      return true;
    }

    /** Creates a file that must not exist yet, in a folder that must. */
    method CreateExclusive(path: string, body: Bytes) returns (ok: bool)
      modifies this`files
      ensures ok <==> path !in old(files) && path !in dirs && (Dir(path) == "." || Dir(path) in dirs)
      ensures files == if ok then old(files)[path := body] else old(files)
    {
      ok := path !in files && path !in dirs && (Dir(path) == "." || Dir(path) in dirs);
      if ok { files := files[path := body]; }
    }

    /**
     One staged object. Keys of a manifest that passed validation never run into each other, in
     whatever order they come.
     */
    method Put(key: string, body: Bytes, ghost placed: set<string>, ghost keys: set<string>)
      returns (ok: bool)
      requires FilledFrom(placed) && placed <= keys && PrefixFree(keys)
      requires ValidKey(key) && key in keys - placed
      modifies this
      ensures ok && FilledFrom(placed + {key})
      ensures files == old(files)[key := body]
    {
      hide ValidKey, Dir, ProperAncestor;
      ParentOf(key);
      var parent := Dir(key);
      ok := true;
      if parent != "." {
        ok := MkdirAll(parent);
      }
      assert ok && forall d :: d in dirs <==> d in old(dirs) || ProperAncestor(d, key);
      ok := CreateExclusive(key, body);
    }
  }

  ghost predicate OnTheWay(d: string, keys: set<string>) {
    exists key :: key in keys && ProperAncestor(d, key)
  }

  /** The ancestors of a key are its parent and the parent's ancestors. */
  lemma ParentOf(key: string)
    requires ValidKey(key)
    ensures var parent := Dir(key);
            forall d :: ProperAncestor(d, key) <==> parent != "." && (d == parent || ProperAncestor(d, parent))
  {
    hide ValidKey, Dir, Split, Join, ProperAncestor;
    ValidKeyIsPlain(key);
    var segments := Split(key);
    var n := |segments| - 1;
    PlainDir(segments);
    PrefixesStayPlain(segments);
    forall d ensures ProperAncestor(d, key) <==> Dir(key) != "." && (d == Dir(key) || ProperAncestor(d, Dir(key))) {
      AncestorsArePrefixes(d, key);
      if n > 0 {
        SplitJoin(segments[..n]);
        AncestorsArePrefixes(d, Dir(key));
        assert forall k :: 1 <= k < n ==> segments[..n][..k] == segments[..k];
      }
    }
  }
}
