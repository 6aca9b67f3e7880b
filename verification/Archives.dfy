/**
 The backup archive as a sequence of tar entries, the parser that Verify and Restore share, and
 the writer (internal/backup/engine.go). SHA-256 is any function to 64 hexadecimal digits; the
 JSON form of the manifest is any encoding with its decoder.
 */
module Archives {

  import opened Counting
  import opened ObjectKeys
  import opened Manifests
  import opened FileTrees
  import opened Storage
  import Utf8
  import opened Wrappers

  const MANIFEST_ENTRY := "manifest.json"
  const DUMP_ENTRY := "database.dump"
  const STORAGE_PREFIX := "storage/"

  datatype Kind = Regular | Symlink | HardLink | Directory | OtherKind
  datatype TarEntry = TarEntry(name: string, kind: Kind, body: Bytes)

  /** `torn`: after these entries the stream ends in a read error instead of the end mark. */
  datatype Archive = Archive(entries: seq<TarEntry>, torn: bool)

  type Digest = Bytes -> string
  type Decoder = Bytes -> Option<Manifest>
  type Encoder = Manifest -> Bytes

  ghost predicate HexDigest(h: Digest) {
    forall b :: IsSha256Hex(h(b))
  }

  /** A manifest after a trip through JSON: the checks read no string but the keys and the digests. */
  function Rewritten(m: Manifest): Manifest {
    m.(objects := RewrittenObjects(m.objects), dumpSha256 := Utf8.Replaced(m.dumpSha256), rest := Utf8.Replaced(m.rest))
  }

  function RewrittenObjects(objects: seq<ObjectEntry>): (r: seq<ObjectEntry>)
    ensures |r| == |objects|
  {
    seq(|objects|, i requires 0 <= i < |objects| =>
      ObjectEntry(Utf8.Replaced(objects[i].key), objects[i].size, Utf8.Replaced(objects[i].sha256)))
  }

  ghost predicate IsJson(encode: Encoder, decode: Decoder) {
    forall m :: decode(encode(m)) == Some(Rewritten(m))
  }

  // ----- the storage section

  predicate IsStorage(e: TarEntry) {
    STORAGE_PREFIX <= e.name
  }

  function KeyOf(e: TarEntry): string
    requires IsStorage(e)
  {
    e.name[|STORAGE_PREFIX|..]
  }

  /** What a storage entry would have to be listed as. */
  ghost function Describe(h: Digest, e: TarEntry): ObjectEntry
    requires IsStorage(e)
  {
    ObjectEntry(KeyOf(e), |e.body|, h(e.body))
  }

  /** The storage entries of a section, each as the manifest would list it. */
  ghost function Described(h: Digest, section: seq<TarEntry>): seq<ObjectEntry> {
    if section == [] then []
    else
      var n := |section| - 1;
      Described(h, section[..n]) + if IsStorage(section[n]) then [Describe(h, section[n])] else []
  }

  /** The files a section unpacks to. */
  ghost function Contents(section: seq<TarEntry>): map<string, Bytes> {
    if section == [] then map[]
    else
      var n := |section| - 1;
      var front := Contents(section[..n]);
      if IsStorage(section[n]) then front[KeyOf(section[n]) := section[n].body] else front
  }

  ghost predicate AllRegular(section: seq<TarEntry>) {
    forall i :: 0 <= i < |section| && IsStorage(section[i]) ==> section[i].kind.Regular?
  }

  /** The section is complete, holds files only, and is a rearrangement of the listed objects. */
  ghost predicate SectionOk(h: Digest, section: seq<TarEntry>, torn: bool, objects: seq<ObjectEntry>) {
    !torn && AllRegular(section) && multiset(Described(h, section)) == multiset(objects)
  }

  lemma {:induction false} DescribedAppend(h: Digest, x: seq<TarEntry>, y: seq<TarEntry>)
    ensures Described(h, x + y) == Described(h, x) + Described(h, y)
  {
    if y == [] {
      assert x + y == x;
    } else {
      var n := |y| - 1;
      DescribedAppend(h, x, y[..n]);
      assert (x + y)[..|x| + n] == x + y[..n];
    }
  }

  lemma DescribedGrows(h: Digest, section: seq<TarEntry>, i: nat)
    requires i < |section|
    ensures Described(h, section[..i + 1])
            == Described(h, section[..i]) + if IsStorage(section[i]) then [Describe(h, section[i])] else []
  {
    var front := section[..i + 1];
    assert front[..i] == section[..i] && front[i] == section[i];
  }

  lemma {:induction false} DescribedAt(h: Digest, section: seq<TarEntry>, i: nat)
    requires i < |section|
    ensures Described(h, section)
            == Described(h, section[..i])
               + (if IsStorage(section[i]) then [Describe(h, section[i])] else [])
               + Described(h, section[i + 1..])
  {
    hide Described, IsStorage;
    assert section == section[..i + 1] + section[i + 1..];
    DescribedAppend(h, section[..i + 1], section[i + 1..]);
    DescribedGrows(h, section, i);
  }

  // ----- rearrangements of a list without repeated keys

  ghost predicate Within(x: seq<ObjectEntry>, y: seq<ObjectEntry>) {
    forall i :: 0 <= i < |x| ==> x[i] in y
  }

  lemma {:induction false} CountsOne(x: seq<ObjectEntry>, o: ObjectEntry)
    requires DistinctKeys(x)
    ensures multiset(x)[o] == if o in x then 1 else 0
  {
    if x != [] {
      var n := |x| - 1;
      CountsOne(x[..n], o);
      assert x == x[..n] + [x[n]];
    }
  }

  /** Against a list without repeated keys, being a rearrangement is being such a list with the same members. */
  lemma Rearranged(x: seq<ObjectEntry>, y: seq<ObjectEntry>)
    requires DistinctKeys(y)
    ensures multiset(x) == multiset(y) <==> DistinctKeys(x) && Within(x, y) && Within(y, x)
  {
    if multiset(x) == multiset(y) {
      assert Within(x, y) by { MembersCarryOver(x, y); }
      assert Within(y, x) by { MembersCarryOver(y, x); }
      forall i, j | 0 <= i < j < |x| ensures x[i].key != x[j].key {
        if x[i].key == x[j].key {
          SameKeySame(x[i], x[j], y);
          CountsOne(y, x[i]);
          TwiceCounted(x, i, j);
          assert false;
        }
      }
    } else if DistinctKeys(x) && Within(x, y) && Within(y, x) {
      forall o ensures multiset(x)[o] == multiset(y)[o] {
        CountsOne(x, o);
        CountsOne(y, o);
      }
      assert false;
    }
  }

  lemma MembersCarryOver(x: seq<ObjectEntry>, y: seq<ObjectEntry>)
    requires multiset(x) == multiset(y)
    ensures Within(x, y)
  {
    forall i | 0 <= i < |x| ensures x[i] in y {
      assert x[i] in multiset(x);
    }
  }

  lemma SameKeySame(a: ObjectEntry, b: ObjectEntry, y: seq<ObjectEntry>)
    requires DistinctKeys(y) && a in y && b in y && a.key == b.key
    ensures a == b
  {
  }

  // ----- the order of the entries does not matter

  lemma {:induction false} DescribedKeepsCounts(h: Digest, x: seq<TarEntry>, y: seq<TarEntry>)
    requires multiset(x) == multiset(y)
    ensures multiset(Described(h, x)) == multiset(Described(h, y))
    decreases |x|
  {
    hide Described, IsStorage;
    if x == [] {
      assert |multiset(y)| == 0;
      assert x == y;
    } else {
      var n := |x| - 1;
      assert x[n] in multiset(y);
      var k :| 0 <= k < |y| && y[k] == x[n];
      DropOne(x, y, k);
      DescribedKeepsCounts(h, x[..n], y[..k] + y[k + 1..]);
      DescribedAppend(h, y[..k], y[k + 1..]);
      DescribedAt(h, y, k);
      assert x[..n + 1] == x;
      DescribedGrows(h, x, n);
    }
  }

  /** Any rearrangement of the entries gets the same verdict. */
  lemma OrderDoesNotMatter(h: Digest, x: seq<TarEntry>, y: seq<TarEntry>, torn: bool, objects: seq<ObjectEntry>)
    requires multiset(x) == multiset(y)
    ensures SectionOk(h, x, torn, objects) <==> SectionOk(h, y, torn, objects)
  {
    DescribedKeepsCounts(h, x, y);
    if AllRegular(x) { RegularCarriesOver(x, y); }
    if AllRegular(y) { RegularCarriesOver(y, x); }
  }

  lemma RegularCarriesOver(x: seq<TarEntry>, y: seq<TarEntry>)
    requires multiset(x) == multiset(y) && AllRegular(x)
    ensures AllRegular(y)
  {
    forall i | 0 <= i < |y| && IsStorage(y[i]) ensures y[i].kind.Regular? {
      assert y[i] in multiset(x);
    }
  }

  // ----- the walk

  /** What the walk knows of the entries it has read. */
  ghost predicate Walked(h: Digest, read: seq<TarEntry>, objects: seq<ObjectEntry>, seen: set<string>) {
    && AllRegular(read) && seen == Keys(Described(h, read))
    && DistinctKeys(Described(h, read)) && Within(Described(h, read), objects)
  }

  /** The walk may go on past this entry. */
  ghost predicate Fits(h: Digest, e: TarEntry, objects: seq<ObjectEntry>, seen: set<string>) {
    IsStorage(e) ==> e.kind.Regular? && Describe(h, e) in objects && KeyOf(e) !in seen
  }

  /** One entry that does not fit condemns the section, whatever follows it. */
  lemma MisfitCondemns(h: Digest, section: seq<TarEntry>, i: nat, torn: bool, objects: seq<ObjectEntry>,
                       seen: set<string>)
    requires i < |section| && DistinctKeys(objects) && Walked(h, section[..i], objects, seen)
    requires !Fits(h, section[i], objects, seen)
    ensures !SectionOk(h, section, torn, objects)
  {
    var e := section[i];
    DescribedAt(h, section, i);
    var before, all := Described(h, section[..i]), Described(h, section);
    Rearranged(all, objects);
    assert all[|before|] == Describe(h, e);
    if KeyOf(e) in seen {
      var j :| 0 <= j < |before| && before[j].key == KeyOf(e);
      assert all[j].key == all[|before|].key;
    }
  }

  lemma FitAdvances(h: Digest, section: seq<TarEntry>, i: nat, objects: seq<ObjectEntry>, seen: set<string>)
    requires i < |section| && Walked(h, section[..i], objects, seen)
    requires Fits(h, section[i], objects, seen)
    ensures Walked(h, section[..i + 1], objects, if IsStorage(section[i]) then seen + {KeyOf(section[i])} else seen)
  {
    hide Described;
    DescribedGrows(h, section, i);
    var before := Described(h, section[..i]);
    if IsStorage(section[i]) {
      KeysGrow(before, Describe(h, section[i]));
    } else {
      assert before + [] == before;
    }
  }

  lemma KeysGrow(objects: seq<ObjectEntry>, o: ObjectEntry)
    ensures Keys(objects + [o]) == Keys(objects) + {o.key}
  {
    var grown := objects + [o];
    forall key | key in Keys(objects) ensures key in Keys(grown) {
      var i :| 0 <= i < |objects| && objects[i].key == key;
      assert grown[i].key == key;
    }
    assert grown[|objects|].key == o.key;
  }

  /** A walk to the end accepts exactly when no listed object is missing. */
  lemma WalkedToTheEnd(h: Digest, section: seq<TarEntry>, torn: bool, objects: seq<ObjectEntry>, seen: set<string>)
    requires DistinctKeys(objects) && Walked(h, section, objects, seen)
    ensures SectionOk(h, section, torn, objects) <==> !torn && Keys(objects) <= seen
  {
    var all := Described(h, section);
    Rearranged(all, objects);
    if Keys(objects) <= seen {
      forall i | 0 <= i < |objects| ensures objects[i] in all {
        assert objects[i].key in Keys(objects);
        var j :| 0 <= j < |all| && all[j].key == objects[i].key;
        assert all[j] in objects;
        SameKeySame(all[j], objects[i], objects);
      }
    }
    if Within(objects, all) {
      forall i | 0 <= i < |objects| ensures objects[i].key in seen {
        var j :| 0 <= j < |all| && all[j] == objects[i];
      }
    }
  }

  lemma WalkStarts(h: Digest, section: seq<TarEntry>, objects: seq<ObjectEntry>)
    ensures Walked(h, section[..0], objects, {}) && Contents(section[..0]) == map[]
  {
  }

  lemma ContentsGrow(section: seq<TarEntry>, i: nat)
    requires i < |section|
    ensures Contents(section[..i + 1])
            == if IsStorage(section[i]) then Contents(section[..i])[KeyOf(section[i]) := section[i].body]
               else Contents(section[..i])
  {
    assert section[..i + 1][..i] == section[..i];
  }

  lemma RefusedKey(h: Digest, e: TarEntry, objects: seq<ObjectEntry>, want: map<string, ObjectEntry>, seen: set<string>)
    requires IsStorage(e) && forall key :: key in Keys(objects) ==> ValidKey(key)
    requires want.Keys == Keys(objects) && forall o :: o in objects ==> want[o.key] == o
    requires || !e.kind.Regular? || !ValidKey(KeyOf(e)) || KeyOf(e) !in want || KeyOf(e) in seen
             || |e.body| != want[KeyOf(e)].size || h(e.body) != want[KeyOf(e)].sha256
    ensures !Fits(h, e, objects, seen)
  {
    hide ValidKey;
    if Describe(h, e) in objects {
      var i :| 0 <= i < |objects| && objects[i] == Describe(h, e);
      assert objects[i].key in Keys(objects);
    }
  }

  method ByKey(objects: seq<ObjectEntry>) returns (want: map<string, ObjectEntry>)
    requires DistinctKeys(objects)
    ensures want.Keys == Keys(objects)
    ensures forall o :: o in objects ==> want[o.key] == o
  {
    want := map[];
    for i := 0 to |objects|
      invariant want.Keys == Keys(objects[..i])
      invariant forall j :: 0 <= j < i ==> objects[j].key in want && want[objects[j].key] == objects[j]
    {
      assert objects[..i + 1] == objects[..i] + [objects[i]];
      KeysGrow(objects[..i], objects[i]);
      want := want[objects[i].key := objects[i]];
    }
    assert objects[..|objects|] == objects;
  }

  /**
   walkStorageEntries with checkObject. With a staging tree every accepted body is also written
   there, parents first and never over an existing name; `failing` are the keys whose file the
   system refuses to write.
   */
  method WalkStorage(h: Digest, section: seq<TarEntry>, torn: bool, objects: seq<ObjectEntry>,
                     stage: Tree?, failing: set<string>)
    returns (ok: bool)
    requires ObjectsOk(objects)
    requires stage != null ==> stage.files == map[] && stage.dirs == {}
    modifies stage
    ensures ok <==> SectionOk(h, section, torn, objects) && (stage != null ==> Keys(objects) !! failing)
    ensures ok && stage != null ==> stage.files == Contents(section) && stage.files.Keys == Keys(objects)
    ensures stage != null ==> stage.Confined()
  {
    hide ObjectOk, SectionOk, Walked, Described, Contents, AllRegular, IsStorage, ValidKey, PrefixFree,
      Tree.FilledFrom, Tree.Confined;
    var want := ByKey(objects);
    var seen := {};
    WalkStarts(h, section, objects);
    if stage != null { stage.EmptyIsFilled(); }
    KeysAreValid(objects);
    for i := 0 to |section|
      invariant Walked(h, section[..i], objects, seen) && seen <= Keys(objects)
      invariant stage != null ==> seen !! failing && stage.FilledFrom(seen)
      invariant stage != null ==> stage.files == Contents(section[..i])
    {
      var e := section[i];
      ContentsGrow(section, i);
      if IsStorage(e) {
        var key := KeyOf(e);
        var valid := ValidateObjectKey(key);
        if !e.kind.Regular? || !valid || key !in want || key in seen
           || |e.body| != want[key].size {
          RefusedKey(h, e, objects, want, seen);
          MisfitCondemns(h, section, i, torn, objects, seen);
          if stage != null { stage.FilledIsConfined(seen); }
          return false;
        }
        if stage != null {
          if key in failing {
            stage.FilledIsConfined(seen);
            return false;
          }
          var _ := stage.Put(key, e.body, seen, Keys(objects));
        }
        if h(e.body) != want[key].sha256 {
          RefusedKey(h, e, objects, want, seen);
          MisfitCondemns(h, section, i, torn, objects, seen);
          if stage != null { stage.FilledIsConfined(seen + {key}); }
          return false;
        }
        assert Describe(h, e) == want[key];
        FitAdvances(h, section, i, objects, seen);
        seen := seen + {key};
      } else {
        FitAdvances(h, section, i, objects, seen);
      }
    }
    assert section[..|section|] == section;
    WalkedToTheEnd(h, section, torn, objects, seen);
    if stage != null { stage.FilledIsConfined(seen); }
    ok := !torn && want.Keys <= seen;
  }

  // ----- the whole archive

  ghost predicate ManifestEntryOk(decode: Decoder, a: Archive, m: Manifest) {
    && |a.entries| >= 1
    && var e := a.entries[0];
    && e.name == MANIFEST_ENTRY && e.kind.Regular? && |e.body| <= MAX_MANIFEST_BYTES
    && decode(e.body) == Some(m) && ManifestOk(m)
  }

  ghost predicate DumpEntryOk(h: Digest, a: Archive, m: Manifest) {
    && |a.entries| >= 2
    && var e := a.entries[1];
    && e.name == DUMP_ENTRY && e.kind.Regular? && |e.body| == m.dumpSize && h(e.body) == m.dumpSha256
  }

  /** The archive is what its manifest says. */
  ghost predicate Genuine(h: Digest, decode: Decoder, a: Archive, m: Manifest) {
    && ManifestEntryOk(decode, a, m) && DumpEntryOk(h, a, m)
    && SectionOk(h, a.entries[2..], a.torn, m.objects)
  }

  method ReadManifest(decode: Decoder, a: Archive) returns (r: Result<Manifest>)
    ensures r.Ok? ==> ManifestEntryOk(decode, a, r.value)
    ensures r.Err? ==> forall m :: !ManifestEntryOk(decode, a, m)
  {
    hide ManifestOk;
    if |a.entries| == 0 {
      return Err;
    }
    var e := a.entries[0];
    if e.name != MANIFEST_ENTRY || !e.kind.Regular? || |e.body| > MAX_MANIFEST_BYTES {
      return Err;
    }
    var decoded := decode(e.body);
    if decoded.None? {
      return Err;
    }
    var ok := ValidateManifest(decoded.value);
    return if ok then Ok(decoded.value) else Err;
  }

  /** verifyDumpEntry: name and kind, the announced size, and then the digest of what was read. */
  method VerifyDumpEntry(h: Digest, a: Archive, m: Manifest) returns (ok: bool)
    ensures ok <==> DumpEntryOk(h, a, m)
  {
    if |a.entries| < 2 {
      return false;
    }
    var e := a.entries[1];
    if e.name != DUMP_ENTRY || !e.kind.Regular? {
      return false;
    }
    if |e.body| != m.dumpSize {
      return false;
    }
    ok := h(e.body) == m.dumpSha256;
  }

  /** Verify accepts exactly the genuine archives, and reports their manifest. */
  method Verify(h: Digest, decode: Decoder, a: Archive) returns (r: Result<Manifest>)
    ensures r.Ok? ==> Genuine(h, decode, a, r.value)
    ensures r.Err? ==> forall m :: !Genuine(h, decode, a, m)
    // the dump is the one that was written
    ensures r.Ok? ==> |a.entries| >= 2 && a.entries[1].name == DUMP_ENTRY && a.entries[1].kind.Regular?
    ensures r.Ok? ==> |a.entries[1].body| == r.value.dumpSize && h(a.entries[1].body) == r.value.dumpSha256
  {
    hide ManifestOk, ObjectsOk, SectionOk;
    var read := ReadManifest(decode, a);
    if read.Err? {
      return Err;
    }
    var dumpOk := VerifyDumpEntry(h, a, read.value);
    if !dumpOk {
      return Err;
    }
    PassedObjects(read.value);
    var ok := WalkStorage(h, a.entries[2..], a.torn, read.value.objects, null, {});
    return if ok then read else Err;
  }

  lemma PassedObjects(m: Manifest)
    requires ManifestOk(m)
    ensures ObjectsOk(m.objects)
  {
  }

  datatype Unpacked = Unpacked(manifest: Manifest, dump: Bytes, files: map<string, Bytes>)

  /** Every listed object is there, byte count and digest as listed, and nothing else is. */
  ghost predicate Matches(h: Digest, files: map<string, Bytes>, objects: seq<ObjectEntry>) {
    && files.Keys == Keys(objects)
    && forall o :: o in objects && o.key in files ==> |files[o.key]| == o.size && h(files[o.key]) == o.sha256
  }

  lemma {:induction false} ContentsMatch(h: Digest, section: seq<TarEntry>)
    requires DistinctKeys(Described(h, section))
    ensures Matches(h, Contents(section), Described(h, section))
  {
    if section != [] {
      var n := |section| - 1;
      var before := Described(h, section[..n]);
      assert section[..n + 1] == section;
      DescribedGrows(h, section, n);
      ContentsGrow(section, n);
      assert DistinctKeys(before) by {
        assert forall i :: 0 <= i < |before| ==> before[i] == Described(h, section)[i];
      }
      ContentsMatch(h, section[..n]);
      ContentsMatchStep(h, section[..n], section[n]);
    }
  }

  lemma ContentsMatchStep(h: Digest, front: seq<TarEntry>, e: TarEntry)
    requires Matches(h, Contents(front), Described(h, front))
    requires IsStorage(e) ==> DistinctKeys(Described(h, front) + [Describe(h, e)])
    ensures IsStorage(e) ==> Matches(h, Contents(front)[KeyOf(e) := e.body], Described(h, front) + [Describe(h, e)])
    ensures Described(h, front) + [] == Described(h, front)
  {
    hide Contents, Described;
    if IsStorage(e) {
      var before := Described(h, front);
      var after := before + [Describe(h, e)];
      KeysGrow(before, Describe(h, e));
      forall o | o in before ensures o.key != KeyOf(e) {
        var i :| 0 <= i < |before| && before[i] == o;
        assert after[i].key != after[|before|].key;
      }
    }
  }

  lemma GenuineContentsMatch(h: Digest, section: seq<TarEntry>, torn: bool, objects: seq<ObjectEntry>)
    requires DistinctKeys(objects) && SectionOk(h, section, torn, objects)
    ensures Matches(h, Contents(section), objects)
  {
    hide Contents;
    var all := Described(h, section);
    Rearranged(all, objects);
    ContentsMatch(h, section);
    assert Keys(all) == Keys(objects) by {
      SameKeys(all, objects);
      SameKeys(objects, all);
    }
  }

  lemma SameKeys(x: seq<ObjectEntry>, y: seq<ObjectEntry>)
    requires Within(x, y)
    ensures Keys(x) <= Keys(y)
  {
    forall key | key in Keys(x) ensures key in Keys(y) {
      var i :| 0 <= i < |x| && x[i].key == key;
      var j :| 0 <= j < |y| && y[j] == x[i];
    }
  }

  // ----- restoring

  /** Without a storage root Restore refuses listed objects and never reads the section. */
  ghost predicate Restorable(h: Digest, decode: Decoder, a: Archive, m: Manifest, hasRoot: bool) {
    && ManifestEntryOk(decode, a, m) && DumpEntryOk(h, a, m)
    && if hasRoot then SectionOk(h, a.entries[2..], a.torn, m.objects) else m.objects == []
  }

  /** The part of Restore that comes before any storage is touched. */
  method Open(h: Digest, decode: Decoder, a: Archive, hasRoot: bool) returns (r: Result<Manifest>)
    ensures r.Ok? <==> exists m :: ManifestEntryOk(decode, a, m) && DumpEntryOk(h, a, m) && (hasRoot || m.objects == [])
    ensures r.Ok? ==> ManifestEntryOk(decode, a, r.value) && DumpEntryOk(h, a, r.value)
    ensures r.Ok? ==> |a.entries| >= 2 && a.entries[1].name == DUMP_ENTRY && a.entries[1].kind.Regular?
    ensures r.Ok? ==> |a.entries[1].body| == r.value.dumpSize && h(a.entries[1].body) == r.value.dumpSha256
  {
    hide ManifestOk, IsSha256Hex;
    r := ReadManifest(decode, a);
    if r.Err? || (!hasRoot && r.value.objects != []) {
      return Err;
    }
    var dumpOk := VerifyDumpEntry(h, a, r.value);
    if !dumpOk {
      return Err;
    }
  }

  /** stageStorage: the files of the section, as they stand in the staging directory. */
  method Stage(h: Digest, a: Archive, m: Manifest, failing: set<string>) returns (r: Result<map<string, Bytes>>)
    requires ManifestOk(m) && |a.entries| >= 2
    ensures r.Ok? <==> SectionOk(h, a.entries[2..], a.torn, m.objects) && Keys(m.objects) !! failing
    ensures r.Ok? ==> r.value == Contents(a.entries[2..]) && Matches(h, r.value, m.objects)
  {
    hide ManifestOk, SectionOk, Contents, Tree.Confined;
    PassedObjects(m);
    var stage := new Tree();
    var ok := WalkStorage(h, a.entries[2..], a.torn, m.objects, stage, failing);
    if !ok {
      return Err;
    }
    GenuineContentsMatch(h, a.entries[2..], a.torn, m.objects);
    return Ok(stage.files);
  }

  /**
   The reading half of Restore. With a storage root it accepts what Verify accepts unless the disk
   refuses a file, and then hands on exactly the listed files.
   */
  method Unpack(h: Digest, decode: Decoder, a: Archive, hasRoot: bool, failing: set<string>)
    returns (r: Result<Unpacked>)
    ensures r.Ok? ==>
              && Restorable(h, decode, a, r.value.manifest, hasRoot)
              && r.value.dump == a.entries[1].body
              && |r.value.dump| == r.value.manifest.dumpSize && h(r.value.dump) == r.value.manifest.dumpSha256
              && r.value.files == (if hasRoot then Contents(a.entries[2..]) else map[])
              && Matches(h, r.value.files, r.value.manifest.objects)
    ensures r.Err? ==> forall m :: Restorable(h, decode, a, m, hasRoot) ==> hasRoot && !(Keys(m.objects) !! failing)
  {
    hide ManifestOk, SectionOk, Contents, IsSha256Hex;
    var read := Open(h, decode, a, hasRoot);
    if read.Err? {
      return Err;
    }
    if !hasRoot {
      return Ok(Unpacked(read.value, a.entries[1].body, map[]));
    }
    var files := Stage(h, a, read.value, failing);
    return if files.Ok? then Ok(Unpacked(read.value, a.entries[1].body, files.value)) else Err;
  }

  lemma {:induction false} NothingDescribed(h: Digest, section: seq<TarEntry>)
    ensures Described(h, section) == [] <==> forall i :: 0 <= i < |section| ==> !IsStorage(section[i])
  {
    if section != [] {
      var n := |section| - 1;
      NothingDescribed(h, section[..n]);
      assert forall i :: 0 <= i < n ==> section[..n][i] == section[i];
    }
  }

  /**
   Verify and Restore agree on an archive with a readable manifest and dump exactly when there is a
   storage root, or nothing is listed and a complete section without storage entries follows, or
   something is listed and the section does not match it.
   */
  lemma VerifyAndRestoreAgree(h: Digest, decode: Decoder, a: Archive, m: Manifest, hasRoot: bool)
    requires ManifestEntryOk(decode, a, m) && DumpEntryOk(h, a, m)
    ensures (Genuine(h, decode, a, m) <==> Restorable(h, decode, a, m, hasRoot)) <==>
            || hasRoot
            || (m.objects == [] && !a.torn && forall i :: 2 <= i < |a.entries| ==> !IsStorage(a.entries[i]))
            || (m.objects != [] && !SectionOk(h, a.entries[2..], a.torn, m.objects))
  {
    hide ManifestEntryOk, Described, IsStorage;
    var section := a.entries[2..];
    assert forall i :: 0 <= i < |section| ==> section[i] == a.entries[i + 2];
    assert forall i :: 2 <= i < |a.entries| ==> a.entries[i] == section[i - 2];
    NothingDescribed(h, section);
    var all := Described(h, section);
    assert multiset(all) == multiset{} <==> all == [] by {
      assert |multiset(all)| == |all|;
    }
  }
}
