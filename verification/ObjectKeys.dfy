/**
 Storage keys: slash-separated paths, the gate every key passes (validateObjectKey in
 internal/backup/archive.go) and the path functions of the standard library it rests on.
 A string is a sequence of bytes.
 */
module ObjectKeys {

  import opened Storage

  const MAX_KEY_LENGTH := 1024

  // ----- segments

  function Split(s: string): (r: seq<string>)
    ensures |r| >= 1
  {
    if s == "" then [""]
    else if s[0] == '/' then [""] + Split(s[1..])
    else var r := Split(s[1..]); [[s[0]] + r[0]] + r[1..]
  }

  function Join(segments: seq<string>): string {
    if |segments| == 0 then ""
    else if |segments| == 1 then segments[0]
    else segments[0] + "/" + Join(segments[1..])
  }

  lemma {:induction false} JoinSplit(s: string)
    ensures Join(Split(s)) == s
  {
    if s != "" {
      JoinSplit(s[1..]);
      var r := Split(s[1..]);
      if s[0] == '/' {
        assert ([""] + r)[1..] == r;
      } else {
        var h := [[s[0]] + r[0]] + r[1..];
        assert h[1..] == r[1..];
        if |r| > 1 {
          assert [s[0]] + r[0] + "/" + Join(r[1..]) == [s[0]] + (r[0] + "/" + Join(r[1..]));
        }
      }
    }
  }

  predicate Bare(segment: string) {
    '/' !in segment
  }

  lemma {:induction false} SplitPrefix(head: string, rest: string)
    requires Bare(head)
    ensures Split(head) == [head]
    ensures Split(head + "/" + rest) == [head] + Split(rest)
  {
    if head == "" {
      assert head + "/" + rest == "/" + rest && ("/" + rest)[1..] == rest;
    } else {
      assert Bare(head[1..]);
      SplitPrefix(head[1..], rest);
      var s := head + "/" + rest;
      assert s[1..] == head[1..] + "/" + rest;
      assert head == [head[0]] + head[1..];
    }
  }

  ghost predicate AllBare(segments: seq<string>) {
    forall i :: 0 <= i < |segments| ==> Bare(segments[i])
  }

  lemma {:induction false} SplitJoin(segments: seq<string>)
    requires |segments| >= 1 && AllBare(segments)
    ensures Split(Join(segments)) == segments
  {
    if |segments| == 1 {
      SplitPrefix(segments[0], "");
    } else {
      SplitJoin(segments[1..]);
      SplitPrefix(segments[0], Join(segments[1..]));
      assert segments == [segments[0]] + segments[1..];
    }
  }

  lemma {:induction false} SplitIsBare(s: string)
    ensures AllBare(Split(s))
  {
    if s != "" {
      SplitIsBare(s[1..]);
    }
  }

  // ----- path.Clean and path.Dir

  /** The segments path.Clean keeps, given those it kept already. */
  function CleanSegments(segments: seq<string>, kept: seq<string>, rooted: bool): seq<string>
    decreases |segments|
  {
    if segments == [] then kept
    else
      var s := segments[0];
      var next :=
        if s == "" || s == "." then kept
        else if s != ".." then kept + [s]
        else if kept != [] && kept[|kept| - 1] != ".." then kept[..|kept| - 1]
        else if rooted then kept
        else kept + [s];
      CleanSegments(segments[1..], next, rooted)
  }

  function Clean(path: string): string {
    var rooted := "/" <= path;
    var kept := CleanSegments(Split(path), [], rooted);
    if rooted then "/" + Join(kept) else if kept == [] then "." else Join(kept)
  }

  /** One step of a walk: ".." goes up, and not beyond the root. */
  ghost function Enter(dir: seq<string>, s: string): seq<string> {
    if s == "" || s == "." then dir
    else if s != ".." then dir + [s]
    else if dir == [] then [] else dir[..|dir| - 1]
  }

  /** Where a walk along the segments leads. */
  ghost function Walk(dir: seq<string>, segments: seq<string>): seq<string>
    decreases |segments|
  {
    if segments == [] then dir else Walk(Enter(dir, segments[0]), segments[1..])
  }

  lemma {:induction false} WalkAppend(dir: seq<string>, a: seq<string>, b: seq<string>)
    ensures Walk(dir, a + b) == Walk(Walk(dir, a), b)
    decreases |a|
  {
    if a == [] {
      assert a + b == b;
    } else {
      assert (a + b)[1..] == a[1..] + b;
      WalkAppend(Enter(dir, a[0]), a[1..], b);
    }
  }

  /** Names, after nothing but steps up, of which a rooted path has none. */
  ghost predicate Canonical(segments: seq<string>, rooted: bool) {
    && (forall i :: 0 <= i < |segments| ==> segments[i] != "" && segments[i] != "." && !(rooted && segments[i] == ".."))
    && forall i :: 0 < i < |segments| && segments[i] == ".." ==> segments[i - 1] == ".."
  }

  /** What is kept is canonical and leads to the same place, from anywhere for a relative path. */
  lemma {:induction false} CleanLeadsThere(segments: seq<string>, kept: seq<string>, rooted: bool, dir: seq<string>)
    requires Canonical(kept, rooted) && (rooted ==> dir == [])
    ensures Canonical(CleanSegments(segments, kept, rooted), rooted)
    ensures Walk(dir, CleanSegments(segments, kept, rooted)) == Walk(dir, kept + segments)
    decreases |segments|
  {
    hide Canonical, Walk;
    if segments == [] {
      assert kept + [] == kept;
    } else {
      var s := segments[0];
      var next := CleanOne(s, kept, rooted, dir);
      CleanLeadsThere(segments[1..], next, rooted, dir);
      assert kept + segments == kept + [s] + segments[1..];
      WalkAppend(dir, kept + [s], segments[1..]);
      WalkAppend(dir, next, segments[1..]);
    }
  }

  lemma CleanOne(s: string, kept: seq<string>, rooted: bool, dir: seq<string>) returns (next: seq<string>)
    requires Canonical(kept, rooted) && (rooted ==> dir == [])
    ensures next == if s == "" || s == "." then kept
                    else if s != ".." then kept + [s]
                    else if kept != [] && kept[|kept| - 1] != ".." then kept[..|kept| - 1]
                    else if rooted then kept
                    else kept + [s]
    ensures Canonical(next, rooted) && Walk(dir, next) == Walk(dir, kept + [s])
  {
    WalkAppend(dir, kept, [s]);
    assert forall d :: Walk(d, [s]) == Walk(Walk(d, [s]), []);
    if s == "" || s == "." {
      next := kept;
    } else if s != ".." {
      next := kept + [s];
    } else if kept != [] && kept[|kept| - 1] != ".." {
      next := kept[..|kept| - 1];
      var name := kept[|kept| - 1];
      assert kept == next + [name];
      WalkAppend(dir, next, [name]);
      assert Walk(dir, kept) == Walk(dir, next) + [name];
    } else if rooted {
      next := kept;
      assert kept == [];
    } else {
      next := kept + [s];
    }
  }

  function LastSlash(s: string): (i: int)
    ensures -1 <= i < |s|
    ensures i >= 0 ==> s[i] == '/'
    ensures forall j :: i < j < |s| ==> s[j] != '/'
  {
    if s == "" then -1 else if s[|s| - 1] == '/' then |s| - 1 else LastSlash(s[..|s| - 1])
  }

  /** path.Dir: everything up to the last slash, cleaned. */
  function Dir(path: string): string {
    Clean(path[..LastSlash(path) + 1])
  }

  predicate Plain(segment: string) {
    segment != "" && segment != "." && segment != ".."
  }

  ghost predicate AllPlain(segments: seq<string>) {
    forall i :: 0 <= i < |segments| ==> Plain(segments[i]) && Bare(segments[i])
  }

  lemma {:induction false} CleanKeepsPlain(segments: seq<string>, kept: seq<string>)
    requires AllPlain(segments)
    ensures CleanSegments(segments, kept, false) == kept + segments
    ensures CleanSegments(segments + [""], kept, false) == kept + segments
    decreases |segments|
  {
    if segments == [] {
      assert kept + [] == kept && [] + [""] == [""];
    } else {
      CleanKeepsPlain(segments[1..], kept + [segments[0]]);
      assert (segments + [""])[1..] == segments[1..] + [""];
      assert kept + [segments[0]] + segments[1..] == kept + segments;
    }
  }

  lemma {:induction false} PlainJoinIsRelative(segments: seq<string>)
    requires |segments| >= 1 && AllPlain(segments)
    ensures Join(segments) != "" && !("/" <= Join(segments))
  {
    var first := segments[0];
    assert first != "" && '/' !in first && first[0] in first;
    assert Join(segments)[0] == first[0];
    assert "/"[0] == '/';
  }

  /** A path of plain segments is canonical. */
  lemma {:induction false} PlainIsClean(segments: seq<string>)
    requires |segments| >= 1 && AllPlain(segments)
    ensures Clean(Join(segments)) == Join(segments)
  {
    hide Split, Join, CleanSegments;
    assert [] + segments == segments;
    SplitJoin(segments);
    PlainJoinIsRelative(segments);
    CleanKeepsPlain(segments, []);
  }

  lemma {:induction false} JoinSnoc(front: seq<string>, last: string)
    requires |front| >= 1
    ensures Join(front + [last]) == Join(front) + "/" + last
  {
    if |front| > 1 {
      JoinSnoc(front[1..], last);
      assert (front + [last])[1..] == front[1..] + [last];
    } else {
      assert (front + [last])[1..] == [last];
    }
  }

  /** The parent of a path of plain segments drops the last one. */
  lemma {:induction false} PlainDir(segments: seq<string>)
    requires |segments| >= 1 && AllPlain(segments)
    ensures Dir(Join(segments)) == if |segments| == 1 then "." else Join(segments[..|segments| - 1])
  {
    hide Join, Clean, LastSlash, AllPlain, Bare;
    var n := |segments| - 1;
    var path := Join(segments);
    PlainParts(segments, n);
    if n == 0 {
      JoinOne(segments);
      assert path[..0] == "";
      CleanNothing();
    } else {
      var front := segments[..n];
      assert segments == front + [segments[n]];
      JoinSnoc(front, segments[n]);
      LastSlashOf(Join(front), segments[n]);
      assert path[..LastSlash(path) + 1] == Join(front) + "/";
      CleanFolder(front);
    }
  }

  lemma PlainParts(segments: seq<string>, n: nat)
    requires AllPlain(segments) && n < |segments|
    ensures AllPlain(segments[..n]) && Bare(segments[n])
  {
  }

  lemma JoinOne(segments: seq<string>)
    requires |segments| == 1 && Bare(segments[0])
    ensures Join(segments) == segments[0] && LastSlash(segments[0]) == -1
  {
  }

  lemma CleanNothing()
    ensures Clean("") == "."
  {
    assert Split("") == [""];
    assert CleanSegments([""], [], false) == CleanSegments([], [], false);
  }

  lemma LastSlashOf(front: string, last: string)
    requires Bare(last)
    ensures var path := front + "/" + last;
            LastSlash(path) == |front| && path[..|front| + 1] == front + "/"
  {
    var path := front + "/" + last;
    assert path[|front|] == '/';
    assert forall j :: |front| < j < |path| ==> path[j] == last[j - |front| - 1];
  }

  lemma {:induction false} CleanFolder(segments: seq<string>)
    requires |segments| >= 1 && AllPlain(segments)
    ensures Clean(Join(segments) + "/") == Join(segments)
  {
    hide Split, Join, CleanSegments;
    assert [] + segments == segments;
    SplitFolder(segments);
    PlainJoinIsRelative(segments);
    assert (Join(segments) + "/")[0] == Join(segments)[0];
    CleanKeepsPlain(segments, []);
  }

  lemma {:induction false} SplitFolder(segments: seq<string>)
    requires |segments| >= 1 && AllPlain(segments)
    ensures Split(Join(segments) + "/") == segments + [""]
  {
    JoinSnoc(segments, "");
    assert Join(segments) + "/" + "" == Join(segments) + "/";
    SplitJoin(segments + [""]);
  }

  // ----- the gate

  function Upper(s: string): (r: string)
    ensures |r| == |s|
    ensures forall i :: 0 <= i < |s| ==> r[i] == if 'a' <= s[i] <= 'z' then s[i] - 'a' + 'A' else s[i]
  {
    if s == "" then ""
    else (if 'a' <= s[0] <= 'z' then [(s[0] as int - 32) as char] else [s[0]]) + Upper(s[1..])
  }

  /** strings.Cut at the first dot. */
  function BeforeDot(s: string): (r: string)
    ensures r <= s && '.' !in r && (r == s || s[|r|] == '.')
  {
    if s == "" || s[0] == '.' then "" else [s[0]] + BeforeDot(s[1..])
  }

  const DEVICES := {"CON", "PRN", "AUX", "NUL",
                    "COM1", "COM2", "COM3", "COM4", "COM5", "COM6", "COM7", "COM8", "COM9",
                    "LPT1", "LPT2", "LPT3", "LPT4", "LPT5", "LPT6", "LPT7", "LPT8", "LPT9"}

  /** A device name in any case, with any extension. */
  ghost predicate ReservedWindowsName(segment: string) {
    exists n :: && 0 <= n <= |segment| && (n == |segment| || segment[n] == '.') && '.' !in segment[..n]
                && Device(Upper(segment[..n]))
  }

  ghost predicate Device(base: string) {
    || base == "CON" || base == "PRN" || base == "AUX" || base == "NUL"
    || (|base| == 4 && (base[..3] == "COM" || base[..3] == "LPT") && '1' <= base[3] <= '9')
  }

  lemma DevicesListed(base: string)
    ensures base in DEVICES <==> Device(base)
  {
    if |base| == 4 && (base[..3] == "COM" || base[..3] == "LPT") && '1' <= base[3] <= '9' {
      assert base == [base[..3][0], base[..3][1], base[..3][2], base[3]];
      if base[..3] == "COM" {
        assert || base == "COM1" || base == "COM2" || base == "COM3" || base == "COM4" || base == "COM5"
               || base == "COM6" || base == "COM7" || base == "COM8" || base == "COM9";
      } else {
        assert || base == "LPT1" || base == "LPT2" || base == "LPT3" || base == "LPT4" || base == "LPT5"
               || base == "LPT6" || base == "LPT7" || base == "LPT8" || base == "LPT9";
      }
    }
  }

  lemma CutIsExact(segment: string)
    ensures ReservedWindowsName(segment) <==> Upper(BeforeDot(segment)) in DEVICES
  {
    hide DEVICES, Upper, Device;
    var base := BeforeDot(segment);
    DevicesListed(Upper(base));
    assert segment[..|base|] == base;
    forall n | 0 <= n <= |segment| && (n == |segment| || segment[n] == '.') && '.' !in segment[..n]
      ensures segment[..n] == base
    {
      assert forall k :: 0 <= k < |base| ==> segment[k] == base[k] && base[k] in base;
      assert forall k :: 0 <= k < n ==> segment[k] == segment[..n][k] && segment[..n][k] in segment[..n];
    }
  }

  ghost predicate SegmentOk(segment: string) {
    && Plain(segment) && !Internal(segment)
    && segment[|segment| - 1] != ' ' && segment[|segment| - 1] != '.'
    && !ReservedWindowsName(segment)
  }

  /** A relative path, inside one drive, of segments that mean the same on every platform. */
  ghost predicate ValidKey(key: string) {
    && key != "" && |key| <= MAX_KEY_LENGTH
    && '\0' !in key && '\\' !in key
    && !("/" <= key) && !(|key| >= 2 && key[1] == ':')
    && forall segment :: segment in Split(key) ==> SegmentOk(segment)
  }

  /** validateObjectKey decides exactly that; its comparison with the cleaned path costs no key. */
  method ValidateObjectKey(key: string) returns (ok: bool)
    ensures ok <==> ValidKey(key)
  {
    hide Clean, Split, DEVICES, Upper, BeforeDot, ReservedWindowsName;
    if || key == "" || |key| > MAX_KEY_LENGTH || '\0' in key || '\\' in key || "/" <= key
       || (|key| >= 2 && key[1] == ':') {
      return false;
    }
    if ValidKey(key) {
      SegmentsMakeKeysCanonical(key);
    }
    if Clean(key) != key {
      return false;
    }
    var segments := Split(key);
    for i := 0 to |segments|
      invariant forall j :: 0 <= j < i ==> SegmentOk(segments[j])
    {
      var segment := segments[i];
      assert segment in Split(key);
      CutIsExact(segment);
      if segment == "" || segment == "." || segment == ".." || INTERNAL_PREFIX <= segment {
        return false;
      }
      var last := segment[|segment| - 1];
      if last == ' ' || last == '.' || Upper(BeforeDot(segment)) in DEVICES {
        return false;
      }
    }
    return true;
  }

  lemma {:induction false} ValidKeyIsPlain(key: string)
    requires ValidKey(key)
    ensures AllPlain(Split(key)) && Join(Split(key)) == key
    ensures forall i :: 0 <= i < |Split(key)| ==> SegmentOk(Split(key)[i])
  {
    SplitIsBare(key);
    JoinSplit(key);
    forall i | 0 <= i < |Split(key)| ensures SegmentOk(Split(key)[i]) {
      assert Split(key)[i] in Split(key);
    }
  }

  /**
   The canonical-path comparison of the gate never decides: a key whose segments all pass is
   already what path.Clean returns.
   */
  lemma SegmentsMakeKeysCanonical(key: string)
    requires forall segment :: segment in Split(key) ==> SegmentOk(segment)
    ensures Clean(key) == key
  {
    hide SegmentOk, Clean;
    SplitIsBare(key);
    JoinSplit(key);
    forall i | 0 <= i < |Split(key)| ensures Plain(Split(key)[i]) {
      SegmentIsPlain(Split(key)[i]);
    }
    PlainIsClean(Split(key));
  }

  lemma SegmentIsPlain(segment: string)
    requires SegmentOk(segment)
    ensures Plain(segment)
  {
  }

  // ----- folders

  /** The folder `a` lies on the way to `b`. */
  predicate ProperAncestor(a: string, b: string) {
    a + "/" <= b
  }

  lemma SplitCons(c: char, s: string)
    ensures Split([c] + s) == if c == '/' then [""] + Split(s) else [[c] + Split(s)[0]] + Split(s)[1..]
  {
    assert ([c] + s)[1..] == s;
  }

  lemma Regroup(first: seq<string>, r: seq<string>, q: seq<string>)
    requires |r| >= 1
    ensures (r + q)[0] == r[0]
    ensures first + (r + q)[1..] == first + r[1..] + q
    ensures first + (r + q) == first + r + q
  {
    assert (r + q)[1..] == r[1..] + q;
  }

  lemma {:induction false} SplitAt(a: string, b: string)
    ensures Split(a + "/" + b) == Split(a) + Split(b)
  {
    if a == "" {
      SplitCons('/', b);
      assert a + "/" + b == "/" + b;
    } else {
      hide Split;
      var rest := a[1..] + "/" + b;
      SplitAt(a[1..], b);
      assert a + "/" + b == [a[0]] + rest && a == [a[0]] + a[1..];
      SplitCons(a[0], rest);
      SplitCons(a[0], a[1..]);
      var r := Split(a[1..]);
      Regroup(if a[0] == '/' then [""] else [[a[0]] + r[0]], r, Split(b));
    }
  }

  lemma {:induction false} JoinAppend(x: seq<string>, y: seq<string>)
    requires |x| >= 1 && |y| >= 1
    ensures Join(x + y) == Join(x) + "/" + Join(y)
  {
    if |x| == 1 {
      assert (x + y)[1..] == y;
    } else {
      JoinAppend(x[1..], y);
      assert (x + y)[1..] == x[1..] + y;
    }
  }

  /** The folders on the way to a path are the joins of its proper prefixes. */
  lemma AncestorsArePrefixes(a: string, b: string)
    ensures ProperAncestor(a, b) <==> exists k :: 1 <= k < |Split(b)| && a == Join(Split(b)[..k])
  {
    var segments := Split(b);
    JoinSplit(b);
    if ProperAncestor(a, b) {
      var rest := b[|a| + 1..];
      assert b == a + "/" + rest;
      SplitAt(a, rest);
      JoinSplit(a);
      assert segments[..|Split(a)|] == Split(a);
    }
    forall k | 1 <= k < |segments| && a == Join(segments[..k]) ensures ProperAncestor(a, b) {
      PrefixIsAncestor(b, k);
    }
  }

  lemma PrefixIsAncestor(b: string, k: nat)
    requires 1 <= k < |Split(b)|
    ensures ProperAncestor(Join(Split(b)[..k]), b)
  {
    var segments := Split(b);
    assert segments == segments[..k] + segments[k..];
    JoinAppend(segments[..k], segments[k..]);
    JoinSplit(b);
  }

  lemma {:induction false} KeptAreBare(segments: seq<string>, kept: seq<string>, rooted: bool)
    requires AllBare(segments) && AllBare(kept)
    ensures AllBare(CleanSegments(segments, kept, rooted))
    decreases |segments|
  {
    if segments != [] {
      var s := segments[0];
      var next :=
        if s == "" || s == "." then kept
        else if s != ".." then kept + [s]
        else if kept != [] && kept[|kept| - 1] != ".." then kept[..|kept| - 1]
        else if rooted then kept
        else kept + [s];
      KeptAreBare(segments[1..], next, rooted);
    }
  }

  lemma JoinBegins(segments: seq<string>)
    requires segments != [] && AllBare(segments) && segments[0] != ""
    ensures Join(segments) != "" && !("/" <= Join(segments))
  {
    assert Join(segments)[0] == segments[0][0] && segments[0][0] in segments[0];
    assert "/"[0] == '/';
  }

  /** path.Clean gives a canonical path to the same place, absolute exactly if the given one is. */
  lemma CleanMeansTheSame(path: string, dir: seq<string>)
    requires "/" <= path ==> dir == []
    ensures ("/" <= Clean(path)) == ("/" <= path)
    ensures Walk(dir, Split(Clean(path))) == Walk(dir, Split(path))
  {
    hide Split, CleanSegments;
    var rooted := "/" <= path;
    var kept := CleanSegments(Split(path), [], rooted);
    assert [] + Split(path) == Split(path);
    CleanLeadsThere(Split(path), [], rooted, dir);
    SplitIsBare(path);
    KeptAreBare(Split(path), [], rooted);
    if kept == [] {
      NoSegments();
      SplitCons('/', "");
      assert "."[0] != "/"[0];
    } else {
      SplitJoin(kept);
      JoinBegins(kept);
      SplitCons('/', Join(kept));
    }
    if rooted {
      assert Clean(path) == ['/'] + Join(kept) && Clean(path)[0] == '/';
      assert Walk(dir, Split(Clean(path))) == Walk(dir, [""] + Split(Join(kept)));
      assert ([""] + Split(Join(kept)))[1..] == Split(Join(kept));
    }
  }

  lemma NoSegments()
    ensures Split("") == [""] && Split(".") == ["."] && Join([]) == ""
    ensures forall dir :: Walk(dir, [""]) == dir && Walk(dir, ["."]) == dir
  {
    assert Split("") == [""] && "." == ['.'] + "";
    SplitCons('.', "");
    assert forall dir :: Walk(dir, [""]) == Walk(dir, []) && Walk(dir, ["."]) == Walk(dir, []);
  }

  /** No key is a folder on the way to another one. */
  ghost predicate PrefixFree(keys: set<string>) {
    forall a, b :: a in keys && b in keys ==> !ProperAncestor(a, b)
  }

  /** The ancestor walk of validateManifest for one key. */
  method ClashesWith(key: string, keys: set<string>) returns (clash: bool)
    requires ValidKey(key)
    ensures clash <==> exists a :: a in keys && ProperAncestor(a, key)
  {
    hide ValidKey, Clean, Join, Split;
    ValidKeyIsPlain(key);
    var segments := Split(key);
    ghost var k := |segments| - 1;
    PlainDir(segments);
    PrefixesStayPlain(segments);
    var prefix := Dir(key);
    while prefix != "." && prefix != "/"
      invariant 0 <= k < |segments| && prefix == if k == 0 then "." else Join(segments[..k])
      invariant forall m :: k < m < |segments| ==> Join(segments[..m]) !in keys
      decreases k
    {
      if prefix in keys {
        PrefixIsAncestor(key, k);
        return true;
      }
      PlainDir(segments[..k]);
      assert segments[..k][..k - 1] == segments[..k - 1];
      prefix, k := Dir(prefix), k - 1;
    }
    forall a | a in keys ensures !ProperAncestor(a, key) {
      AncestorsArePrefixes(a, key);
    }
    return false;
  }

  /** No prefix of plain segments reads as the current or the root directory. */
  lemma PrefixesStayPlain(segments: seq<string>)
    requires AllPlain(segments)
    ensures forall m :: 1 <= m <= |segments| ==> AllPlain(segments[..m])
    ensures forall m :: 1 <= m <= |segments| ==> Join(segments[..m]) != "." && Join(segments[..m]) != "/"
  {
    forall m | 1 <= m <= |segments| ensures Join(segments[..m]) != "." && Join(segments[..m]) != "/" {
      var front := segments[..m];
      if m > 1 {
        assert |front[0]| >= 1 && |Join(front)| >= 2;
      }
      PlainJoinIsRelative(front);
    }
  }
}
