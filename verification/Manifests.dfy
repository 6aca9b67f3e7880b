/** What an archive says it holds, and the validation of that claim (internal/backup/archive.go). */
module Manifests {

  import opened ObjectKeys

  const FORMAT_VERSION := 1
  const MAX_OBJECTS := 2_000_000
  const MAX_MANIFEST_BYTES := 256 * 1024 * 1024

  datatype ObjectEntry = ObjectEntry(key: string, size: int, sha256: string)

  /** `rest` stands for the fields no check reads (creation time, versions, fingerprint, skipped keys). */
  datatype Manifest = Manifest(formatVersion: int, dumpSize: int, dumpSha256: string,
                               objects: seq<ObjectEntry>, rest: string)

  /** 64 hexadecimal digits in lower case. */
  ghost predicate IsSha256Hex(value: string) {
    |value| == 64 && forall i :: 0 <= i < 64 ==> value[i] in "0123456789abcdef"
  }

  ghost predicate ObjectOk(o: ObjectEntry) {
    ValidKey(o.key) && o.size >= 0 && IsSha256Hex(o.sha256)
  }

  ghost predicate DistinctKeys(objects: seq<ObjectEntry>) {
    forall i, j :: 0 <= i < j < |objects| ==> objects[i].key != objects[j].key
  }

  ghost function Keys(objects: seq<ObjectEntry>): set<string> {
    set i | 0 <= i < |objects| :: objects[i].key
  }

  ghost predicate ObjectsOk(objects: seq<ObjectEntry>) {
    && (forall i :: 0 <= i < |objects| ==> ObjectOk(objects[i]))
    && DistinctKeys(objects) && PrefixFree(Keys(objects))
  }

  ghost predicate ManifestOk(m: Manifest) {
    && m.formatVersion == FORMAT_VERSION
    && m.dumpSize >= 0 && IsSha256Hex(m.dumpSha256)
    && |m.objects| <= MAX_OBJECTS
    && ObjectsOk(m.objects)
  }

  method CheckSha256Hex(value: string) returns (ok: bool)
    ensures ok <==> IsSha256Hex(value)
  {
    if |value| != 64 {
      return false;
    }
    for i := 0 to |value|
      invariant forall j :: 0 <= j < i ==> value[j] in "0123456789abcdef"
    {
      var c := value[i];
      HexDigits(c);
      if (c < '0' || c > '9') && (c < 'a' || c > 'f') {
        return false;
      }
    }
    return true;
  }

  lemma HexDigits(c: char)
    ensures c in "0123456789abcdef" <==> '0' <= c <= '9' || 'a' <= c <= 'f'
  {
    var d := "0123456789abcdef";
    if '0' <= c <= '9' {
      assert d[c as int - '0' as int] == c;
    } else if 'a' <= c <= 'f' {
      assert d[c as int - 'a' as int + 10] == c;
    }
  }

  /** validateManifest decides exactly whether the objects can exist together in one directory tree. */
  method ValidateManifest(m: Manifest) returns (ok: bool)
    ensures ok <==> ManifestOk(m)
  {
    hide ObjectOk, ProperAncestor, ValidKey, IsSha256Hex;
    if m.formatVersion != FORMAT_VERSION || m.dumpSize < 0 {
      return false;
    }
    var hex := CheckSha256Hex(m.dumpSha256);
    if !hex || |m.objects| > MAX_OBJECTS {
      return false;
    }
    var seen := {};
    for i := 0 to |m.objects|
      invariant seen == Keys(m.objects[..i])
      invariant DistinctKeys(m.objects[..i])
      invariant forall j :: 0 <= j < i ==> ObjectOk(m.objects[j])
    {
      var o := m.objects[i];
      ObjectMeans(o);
      var valid := ValidateObjectKey(o.key);
      if !valid || o.size < 0 {
        return false;
      }
      hex := CheckSha256Hex(o.sha256);
      if !hex || o.key in seen {
        return false;
      }
      seen := seen + {o.key};
    }
    assert m.objects[..|m.objects|] == m.objects;
    KeysAreValid(m.objects);
    ok := NoClash(seen);
  }

  lemma ObjectMeans(o: ObjectEntry)
    ensures ObjectOk(o) <==> ValidKey(o.key) && o.size >= 0 && IsSha256Hex(o.sha256)
  {
    hide ValidKey, IsSha256Hex;
  }

  lemma KeysAreValid(objects: seq<ObjectEntry>)
    requires forall i :: 0 <= i < |objects| ==> ObjectOk(objects[i])
    ensures forall key :: key in Keys(objects) ==> ValidKey(key)
  {
    hide ValidKey;
  }

  /** The second loop of validateManifest: every key's ancestors against all keys. */
  method NoClash(seen: set<string>) returns (ok: bool)
    requires forall key :: key in seen ==> ValidKey(key)
    ensures ok <==> PrefixFree(seen)
  {
    hide ValidKey, ProperAncestor;
    var todo := seen;
    while todo != {}
      invariant todo <= seen
      invariant forall a, b :: a in seen && b in seen - todo ==> !ProperAncestor(a, b)
    {
      var key :| key in todo;
      var clash := ClashesWith(key, seen);
      if clash {
        return false;
      }
      todo := todo - {key};
    }
    return true;
  }
}
