/** Writing an archive (Create in internal/backup/engine.go) and what reading it back gives. */
module ArchiveWriter {

  import opened ObjectKeys
  import opened Manifests
  import opened Archives
  import opened Storage
  import opened Wrappers
  import Utf8

  /** `order` names every captured file once; Create uses ascending order, the results hold for any. */
  ghost predicate Lists(order: seq<string>, files: map<string, Bytes>) {
    && (forall i, j :: 0 <= i < j < |order| ==> order[i] != order[j])
    && (forall i :: 0 <= i < |order| ==> order[i] in files)
    && (forall key :: key in files ==> key in order)
  }

  ghost function Objects(h: Digest, files: map<string, Bytes>, order: seq<string>): (objects: seq<ObjectEntry>)
    requires forall i :: 0 <= i < |order| ==> order[i] in files
    ensures |objects| == |order|
  {
    seq(|order|, i requires 0 <= i < |order| => ObjectEntry(order[i], |files[order[i]]|, h(files[order[i]])))
  }

  ghost function Section(files: map<string, Bytes>, order: seq<string>): (section: seq<TarEntry>)
    requires forall i :: 0 <= i < |order| ==> order[i] in files
    ensures |section| == |order|
  {
    seq(|order|, i requires 0 <= i < |order| => TarEntry(STORAGE_PREFIX + order[i], Regular, files[order[i]]))
  }

  ghost function ManifestOf(h: Digest, dump: Bytes, files: map<string, Bytes>, order: seq<string>,
                            rest: string): Manifest
    requires forall i :: 0 <= i < |order| ==> order[i] in files
  {
    Manifest(FORMAT_VERSION, |dump|, h(dump), Objects(h, files, order), rest)
  }

  ghost function ArchiveOf(encode: Encoder, m: Manifest, dump: Bytes, section: seq<TarEntry>): Archive {
    Archive([TarEntry(MANIFEST_ENTRY, Regular, encode(m)), TarEntry(DUMP_ENTRY, Regular, dump)] + section, false)
  }

  /** The caps the reader enforces; nothing checks them when the archive is written. */
  ghost predicate WithinCaps(encode: Encoder, m: Manifest) {
    |m.objects| <= MAX_OBJECTS && |encode(m)| <= MAX_MANIFEST_BYTES
  }

  ghost predicate ValidKeys(files: map<string, Bytes>) {
    forall key :: key in files ==> ValidKey(key)
  }

  /** JSON carries a key as it is only when it is UTF-8; nothing checks that either. */
  ghost predicate Utf8Keys(files: map<string, Bytes>) {
    forall key :: key in files ==> Utf8.Valid(key)
  }

  /** Every hashed file is there again when it is streamed, with the size it was hashed with. */
  ghost predicate SameSizes(files: map<string, Bytes>, streamed: map<string, Bytes>) {
    forall key :: key in files ==> key in streamed && |streamed[key]| == |files[key]|
  }

  ghost predicate SameDigests(h: Digest, files: map<string, Bytes>, streamed: map<string, Bytes>) {
    forall key :: key in files && key in streamed ==> h(streamed[key]) == h(files[key])
  }

  datatype Backup = Backup(archive: Archive, manifest: Manifest)

  /**
   Create, from the walk on: `files` is what was hashed, `streamed` what the snapshot directory holds
   when it is opened again. Refuses a key that could not be restored, a file that is gone or has
   another size, and any failing write.
   */
  method Create(h: Digest, encode: Encoder, dump: Bytes, files: map<string, Bytes>, streamed: map<string, Bytes>,
                order: seq<string>, rest: string, writeFails: bool)
    returns (r: Result<Backup>)
    requires Lists(order, files)
    ensures r.Ok? <==> ValidKeys(files) && SameSizes(files, streamed) && !writeFails
    ensures r.Ok? ==> r.value.manifest == ManifestOf(h, dump, files, order, rest)
    ensures r.Ok? ==> r.value.archive == ArchiveOf(encode, r.value.manifest, dump, Section(streamed, order))
  {
    hide ValidKey, Section, STORAGE_PREFIX;
    var objects := [];
    for i := 0 to |order|
      invariant objects == Objects(h, files, order)[..i]
      invariant forall j :: 0 <= j < i ==> ValidKey(order[j])
    {
      var valid := ValidateObjectKey(order[i]);
      if !valid {
        return Err;
      }
      var body := files[order[i]];
      objects := objects + [ObjectEntry(order[i], |body|, h(body))];
    }
    var m := Manifest(FORMAT_VERSION, |dump|, h(dump), objects, rest);
    var head := [TarEntry(MANIFEST_ENTRY, Regular, encode(m)), TarEntry(DUMP_ENTRY, Regular, dump)];
    var entries := head;
    for i := 0 to |objects|
      invariant forall j :: 0 <= j < i ==> order[j] in streamed && |streamed[order[j]]| == |files[order[j]]|
      invariant entries == head + Section(streamed, order[..i])
    {
      var key := objects[i].key;
      if key !in streamed || |streamed[key]| != objects[i].size {
        return Err;
      }
      SectionGrows(streamed, order, i);
      entries := entries + [TarEntry(STORAGE_PREFIX + key, Regular, streamed[key])];
    }
    if writeFails {
      return Err;
    }
    assert order[..|order|] == order;
    return Ok(Backup(Archive(entries, false), m));
  }

  lemma SectionGrows(files: map<string, Bytes>, order: seq<string>, i: nat)
    requires i < |order| && forall j :: 0 <= j <= i ==> order[j] in files
    ensures Section(files, order[..i + 1])
            == Section(files, order[..i]) + [TarEntry(STORAGE_PREFIX + order[i], Regular, files[order[i]])]
  {
  }

  lemma StorageName(key: string)
    ensures STORAGE_PREFIX <= STORAGE_PREFIX + key && (STORAGE_PREFIX + key)[|STORAGE_PREFIX|..] == key
  {
  }

  /** What was written describes itself, and unpacks to what was streamed. */
  lemma {:induction false} SectionReadsBack(h: Digest, files: map<string, Bytes>, order: seq<string>)
    requires forall i :: 0 <= i < |order| ==> order[i] in files
    ensures Described(h, Section(files, order)) == Objects(h, files, order)
    ensures AllRegular(Section(files, order))
    ensures Contents(Section(files, order)) == map key | key in files && key in order :: files[key]
    decreases |order|
  {
    hide STORAGE_PREFIX;
    var section := Section(files, order);
    if order != [] {
      var n := |order| - 1;
      SectionReadsBack(h, files, order[..n]);
      assert section[..n] == Section(files, order[..n]);
      assert Objects(h, files, order) == Objects(h, files, order[..n]) + [Objects(h, files, order)[n]];
      StorageName(order[n]);
    }
  }

  lemma ListedObjectsOk(h: Digest, files: map<string, Bytes>, order: seq<string>)
    requires HexDigest(h) && Lists(order, files) && PrefixFree(files.Keys) && ValidKeys(files)
    ensures ObjectsOk(Objects(h, files, order))
    ensures Keys(Objects(h, files, order)) == files.Keys
  {
    hide ValidKey, IsSha256Hex, ProperAncestor;
    var objects := Objects(h, files, order);
    forall key | key in files ensures key in Keys(objects) {
      var i :| 0 <= i < |order| && order[i] == key;
      assert objects[i].key == key;
    }
  }

  lemma DigestsSurvive(h: Digest, b: Bytes)
    requires HexDigest(h)
    ensures Utf8.Replaced(h(b)) == h(b)
  {
    assert IsSha256Hex(h(b));
    Utf8.AsciiIsValid(h(b));
    Utf8.SurvivesIfValid(h(b));
  }

  /** JSON leaves the manifest's objects alone when the keys are UTF-8. */
  lemma ObjectsSurvive(h: Digest, files: map<string, Bytes>, order: seq<string>)
    requires HexDigest(h) && Lists(order, files) && Utf8Keys(files)
    ensures RewrittenObjects(Objects(h, files, order)) == Objects(h, files, order)
  {
    hide Utf8.Valid, Utf8.Replaced, IsSha256Hex;
    var objects := Objects(h, files, order);
    forall i | 0 <= i < |objects| ensures RewrittenObjects(objects)[i] == objects[i] {
      Utf8.SurvivesIfValid(order[i]);
      DigestsSurvive(h, files[order[i]]);
    }
  }

  /** A key that is not UTF-8 comes back as another one, so its entry is not among the listed objects. */
  lemma LostKey(h: Digest, files: map<string, Bytes>, streamed: map<string, Bytes>, order: seq<string>, key: string)
    requires Lists(order, files) && SameSizes(files, streamed) && key in files && !Utf8.Valid(key)
    ensures multiset(Objects(h, streamed, order)) != multiset(RewrittenObjects(Objects(h, files, order)))
  {
    hide Utf8.Valid, Utf8.Replaced;
    var written, listed := Objects(h, streamed, order), RewrittenObjects(Objects(h, files, order));
    var i :| 0 <= i < |order| && order[i] == key;
    if multiset(written) == multiset(listed) {
      MembersCarryOver(written, listed);
      var j :| 0 <= j < |listed| && listed[j] == written[i];
      Utf8.ReplacedIsValid(order[j]);
      assert false;
    }
  }

  /** Two listings of the same keys in one order are rearrangements exactly when sizes and digests agree. */
  lemma SameListing(h: Digest, files: map<string, Bytes>, streamed: map<string, Bytes>, order: seq<string>)
    requires Lists(order, files) && SameSizes(files, streamed)
    ensures multiset(Objects(h, streamed, order)) == multiset(Objects(h, files, order)) <==>
            SameDigests(h, files, streamed)
  {
    var written, listed := Objects(h, streamed, order), Objects(h, files, order);
    if SameDigests(h, files, streamed) {
      assert written == listed;
    }
    if multiset(written) == multiset(listed) {
      MembersCarryOver(written, listed);
      forall key | key in files ensures h(streamed[key]) == h(files[key]) {
        var i :| 0 <= i < |order| && order[i] == key;
        assert written[i] in listed;
        SameKeySame(written[i], listed[i], listed);
      }
    }
  }

  /** What Create wrote, as the reader decodes it. */
  ghost predicate Readable(h: Digest, encode: Encoder, files: map<string, Bytes>, streamed: map<string, Bytes>,
                           m: Manifest) {
    WithinCaps(encode, m) && Utf8Keys(files) && SameDigests(h, files, streamed)
  }

  /**
   Verify accepts what Create wrote exactly when the reader's caps hold, every key is UTF-8 and the
   streamed files have the digests they were listed with.
   */
  lemma WrittenIsGenuine(h: Digest, encode: Encoder, decode: Decoder, dump: Bytes, files: map<string, Bytes>,
                         streamed: map<string, Bytes>, order: seq<string>, rest: string)
    requires HexDigest(h) && IsJson(encode, decode) && Lists(order, files) && PrefixFree(files.Keys)
    requires ValidKeys(files) && SameSizes(files, streamed)
    ensures var m := ManifestOf(h, dump, files, order, rest);
            var a := ArchiveOf(encode, m, dump, Section(streamed, order));
            && (Genuine(h, decode, a, Rewritten(m)) <==> Readable(h, encode, files, streamed, m))
            && (forall other :: Genuine(h, decode, a, other) ==> other == Rewritten(m))
            && (Utf8Keys(files) ==> Keys(Rewritten(m).objects) == files.Keys)
            && Contents(a.entries[2..]) == map key | key in files :: streamed[key]
  {
    hide ValidKey, IsSha256Hex, PrefixFree, Contents, Described, AllRegular, ObjectsOk, Utf8.Valid, Utf8.Replaced,
      SameDigests;
    var m := ManifestOf(h, dump, files, order, rest);
    var section := Section(streamed, order);
    var a := ArchiveOf(encode, m, dump, section);
    assert a.entries[2..] == section;
    SectionReadsBack(h, streamed, order);
    ListedObjectsOk(h, files, order);
    DigestsSurvive(h, dump);
    assert (map key | key in streamed && key in order :: streamed[key]) == map key | key in files :: streamed[key];
    assert a.entries[0].body == encode(m) && decode(encode(m)) == Some(Rewritten(m));
    if Utf8Keys(files) {
      ObjectsSurvive(h, files, order);
      SameListing(h, files, streamed, order);
    } else {
      var key :| key in files && !Utf8.Valid(key);
      LostKey(h, files, streamed, order, key);
    }
  }

  /**
   A dump of another size or digest than the one that was listed is never handed on: no manifest makes
   the archive genuine, and none makes it restorable, with or without a storage root.
   */
  lemma DamagedDumpIsRefused(h: Digest, encode: Encoder, decode: Decoder, dump: Bytes, body: Bytes,
                             files: map<string, Bytes>, streamed: map<string, Bytes>, order: seq<string>, rest: string)
    requires HexDigest(h) && IsJson(encode, decode) && Lists(order, files) && SameSizes(files, streamed)
    requires |body| != |dump| || h(body) != h(dump)
    ensures var a := ArchiveOf(encode, ManifestOf(h, dump, files, order, rest), body, Section(streamed, order));
            forall m, hasRoot :: !Restorable(h, decode, a, m, hasRoot) && !Genuine(h, decode, a, m)
  {
    hide IsSha256Hex, Utf8.Replaced, SectionOk, ManifestOk;
    var m := ManifestOf(h, dump, files, order, rest);
    var a := ArchiveOf(encode, m, body, Section(streamed, order));
    DigestsSurvive(h, dump);
    forall other, hasRoot ensures !Genuine(h, decode, a, other) && !Restorable(h, decode, a, other, hasRoot) {
      assert a.entries[0].body == encode(m) && a.entries[1].body == body;
      assert decode(encode(m)) == Some(Rewritten(m));
    }
  }

  /**
   The round trip. A backup of an ordinary tree whose files stay as they were captured can be verified
   and restored, byte for byte, exactly when it is within the reader's caps and its keys are UTF-8.
   */
  method BackUpAndRestore(h: Digest, encode: Encoder, decode: Decoder, dump: Bytes, files: map<string, Bytes>,
                          streamed: map<string, Bytes>, order: seq<string>, rest: string)
    returns (created: Result<Backup>, verified: Result<Manifest>, restored: Result<Unpacked>)
    requires HexDigest(h) && IsJson(encode, decode) && Lists(order, files) && PrefixFree(files.Keys)
    ensures created.Ok? <==> ValidKeys(files) && SameSizes(files, streamed)
    ensures verified.Ok? <==> created.Ok? && Readable(h, encode, files, streamed, created.value.manifest)
    ensures verified.Ok? ==> verified.value == Rewritten(created.value.manifest)
    ensures verified.Ok? <==> restored.Ok?
    ensures restored.Ok? ==> restored.value == Unpacked(verified.value, dump, map key | key in files :: streamed[key])
    ensures restored.Ok? && streamed == files ==> restored.value.files == files
  {
    hide ValidKey, IsSha256Hex, PrefixFree, Contents, Matches, Genuine, Section, ManifestOf, Readable;
    created := Create(h, encode, dump, files, streamed, order, rest, false);
    if created.Err? {
      return created, Err, Err;
    }
    WrittenIsGenuine(h, encode, decode, dump, files, streamed, order, rest);
    verified := Verify(h, decode, created.value.archive);
    restored := Unpack(h, decode, created.value.archive, true, {});
    RootedIsGenuine(h, decode, created.value.archive);
  }

  lemma RootedIsGenuine(h: Digest, decode: Decoder, a: Archive)
    ensures forall m :: Restorable(h, decode, a, m, true) <==> Genuine(h, decode, a, m)
  {
    hide ManifestEntryOk, DumpEntryOk, SectionOk;
  }

  /**
   Without a storage root the two part ways: with nothing listed and within the caps, any section that
   is torn or holds a storage entry is restored over and refused by Verify.
   */
  lemma RootlessRestoreSkipsTheSection(h: Digest, encode: Encoder, decode: Decoder, dump: Bytes, rest: string,
                                       section: seq<TarEntry>, torn: bool)
    requires HexDigest(h) && IsJson(encode, decode)
    requires torn || exists i :: 0 <= i < |section| && IsStorage(section[i])
    ensures var m := Manifest(FORMAT_VERSION, |dump|, h(dump), [], rest);
            var a := ArchiveOf(encode, m, dump, section).(torn := torn);
            WithinCaps(encode, m) ==>
              Restorable(h, decode, a, Rewritten(m), false) && forall other :: !Genuine(h, decode, a, other)
  {
    hide IsStorage, IsSha256Hex, Utf8.Replaced, SectionOk, Described;
    var m := Manifest(FORMAT_VERSION, |dump|, h(dump), [], rest);
    var a := ArchiveOf(encode, m, dump, section).(torn := torn);
    if WithinCaps(encode, m) {
      DigestsSurvive(h, dump);
      assert a.entries[0].body == encode(m) && a.entries[2..] == section;
      assert RewrittenObjects([]) == [];
      VerifyAndRestoreAgree(h, decode, a, Rewritten(m), false);
    }
  }

  /** And an archive that lists a file is accepted by Verify and refused by a restore without a root. */
  lemma RootlessRestoreRefusesFiles(h: Digest, decode: Decoder, a: Archive, m: Manifest)
    requires Genuine(h, decode, a, m) && m.objects != []
    ensures forall other :: !Restorable(h, decode, a, other, false)
  {
    hide SectionOk, DumpEntryOk;
  }
}
