/** The duplicate-row check and its key (DuplicateRule and duplicateKey in internal/dataexchange/validation.go). */
module DuplicateRows {

  import opened Text
  import Utf8

  datatype MappedRow = MappedRow(number: int, values: map<string, string>)
  datatype Issue = InvalidRule | DuplicateOf(row: int, first: int)

  // ----- the key

  /** Each part is preceded by its length in bytes. */
  ghost function Key(parts: seq<string>): string {
    if parts == [] then "" else Key(parts[..|parts| - 1]) + Prefixed(parts[|parts| - 1])
  }

  /** len counts the bytes of the UTF-8 form. */
  function ByteLength(s: string): nat {
    if s == "" then 0 else ByteLength(s[..|s| - 1]) + Utf8.Size(s[|s| - 1])
  }

  function Prefixed(part: string): string {
    Itoa(ByteLength(part)) + ":" + part
  }

  lemma {:induction false} LongerHasMoreBytes(s: string, n: nat)
    requires n < |s|
    ensures ByteLength(s[..n]) < ByteLength(s)
  {
    var last := |s| - 1;
    if n < last {
      LongerHasMoreBytes(s[..last], n);
      assert s[..last][..n] == s[..n];
    }
  }

  /** The byte count tells where a part ends. */
  lemma PartEndsWhereCounted(p: string, x: string, q: string, y: string)
    requires p + x == q + y && ByteLength(p) == ByteLength(q)
    ensures p == q && x == y
  {
    hide ByteLength;
    var s := p + x;
    assert p == s[..|p|] && q == s[..|q|];
    if |p| < |q| {
      assert q[..|p|] == p;
      LongerHasMoreBytes(q, |p|);
    } else if |q| < |p| {
      assert p[..|q|] == q;
      LongerHasMoreBytes(p, |q|);
    }
    assert x == s[|p|..] && y == s[|q|..];
  }

  method DuplicateKey(parts: seq<string>) returns (key: string)
    ensures key == Key(parts)
  {
    hide Prefixed;
    key := "";
    for i := 0 to |parts|
      invariant key == Key(parts[..i])
    {
      assert parts[..i + 1][..i] == parts[..i];
      key := key + Prefixed(parts[i]);
    }
    assert parts[..|parts|] == parts;
  }

  /** The key read from the front. */
  lemma {:induction false} KeyFromTheFront(parts: seq<string>)
    requires parts != []
    ensures Key(parts) == Prefixed(parts[0]) + Key(parts[1..])
  {
    hide Prefixed;
    var n := |parts| - 1;
    if n == 0 {
      assert parts[..0] == [] && parts[1..] == [];
    } else {
      KeyFromTheFront(parts[..n]);
      assert parts[..n][1..] == parts[1..][..n - 1];
    }
  }

  /** Where the digits of a number end, the number is known. */
  lemma {:induction false} DigitsEndAtTheColon(a: string, b: string, x: string, y: string)
    requires AllDigits(a) && AllDigits(b) && a + ":" + x == b + ":" + y
    ensures a == b && x == y
  {
    var s, t := a + ":" + x, b + ":" + y;
    assert s[|a|] == ':' && t[|b|] == ':';
    if |a| < |b| {
      assert false;
    } else if |b| < |a| {
      assert false;
    } else {
      assert a == s[..|a|] && b == t[..|b|];
      assert x == s[|a| + 1..] && y == t[|b| + 1..];
    }
  }

  /** One part can be read off the front of a key, whatever follows. */
  lemma PartReadsBack(p: string, x: string, q: string, y: string)
    requires Prefixed(p) + x == Prefixed(q) + y
    ensures p == q && x == y
  {
    hide Itoa, ByteLength;
    var a, b := Itoa(ByteLength(p)), Itoa(ByteLength(q));
    assert Prefixed(p) + x == a + ":" + (p + x) && Prefixed(q) + y == b + ":" + (q + y);
    DigitsEndAtTheColon(a, b, p + x, q + y);
    ItoaIsInjective(ByteLength(p), ByteLength(q));
    PartEndsWhereCounted(p, x, q, y);
  }

  /** Different lists of parts have different keys. */
  lemma {:induction false} KeyIsInjective(x: seq<string>, y: seq<string>)
    requires Key(x) == Key(y)
    ensures x == y
    decreases |x|
  {
    hide Key, Prefixed;
    if x == [] || y == [] {
      OnlyEmptyHasNoKey(x);
      OnlyEmptyHasNoKey(y);
    } else {
      KeyFromTheFront(x);
      KeyFromTheFront(y);
      PartReadsBack(x[0], Key(x[1..]), y[0], Key(y[1..]));
      KeyIsInjective(x[1..], y[1..]);
      assert x == [x[0]] + x[1..] && y == [y[0]] + y[1..];
    }
  }

  lemma OnlyEmptyHasNoKey(x: seq<string>)
    ensures Key(x) == "" <==> x == []
  {
    hide Itoa;
  }

  // ----- the rule

  /** The trimmed values of the fields, if the row has them all and not all are empty. */
  ghost predicate Checked(u: Unicode, row: MappedRow, fields: seq<string>) {
    && (forall i :: 0 <= i < |fields| ==> fields[i] in row.values)
    && exists i :: 0 <= i < |fields| && Trim(u, row.values[fields[i]]) != ""
  }

  ghost function Tuple(u: Unicode, row: MappedRow, fields: seq<string>): seq<string> {
    seq(|fields|, i requires 0 <= i < |fields| =>
      if fields[i] in row.values then Trim(u, row.values[fields[i]]) else "")
  }

  /** Row j is a checked row with the same tuple as row k. */
  ghost predicate Same(u: Unicode, rows: seq<MappedRow>, fields: seq<string>, j: nat, k: nat)
    requires j < |rows| && k < |rows|
  {
    Checked(u, rows[j], fields) && Checked(u, rows[k], fields) && Tuple(u, rows[j], fields) == Tuple(u, rows[k], fields)
  }

  /** The first row with the tuple of row k, searching from j; k itself if there is no earlier one. */
  ghost function FirstSame(u: Unicode, rows: seq<MappedRow>, fields: seq<string>, k: nat, j: nat): (r: nat)
    requires j <= k < |rows|
    ensures j <= r <= k
    ensures r < k ==> Same(u, rows, fields, r, k)
    ensures forall i :: j <= i < r ==> !Same(u, rows, fields, i, k)
    decreases k - j
  {
    if j == k || Same(u, rows, fields, j, k) then j else FirstSame(u, rows, fields, k, j + 1)
  }

  /** In row order, one issue for every row that repeats an earlier one, naming the first. */
  ghost function Issues(u: Unicode, rows: seq<MappedRow>, fields: seq<string>, n: nat): seq<Issue>
    requires n <= |rows|
  {
    if n == 0 then []
    else
      var k := n - 1;
      var first := FirstSame(u, rows, fields, k, 0);
      Issues(u, rows, fields, k) + if first < k then [DuplicateOf(rows[k].number, rows[first].number)] else []
  }

  /** The values compared for one row, or that it is not compared. */
  method Parts(u: Unicode, row: MappedRow, fields: seq<string>) returns (checked: bool, parts: seq<string>)
    ensures checked <==> Checked(u, row, fields)
    ensures checked ==> parts == Tuple(u, row, fields)
  {
    hide Trim;
    parts := [];
    var empty := true;
    for i := 0 to |fields|
      invariant forall k :: 0 <= k < i ==> fields[k] in row.values
      invariant parts == Tuple(u, row, fields)[..i]
      invariant empty <==> forall k :: 0 <= k < i ==> Trim(u, row.values[fields[k]]) == ""
    {
      if fields[i] !in row.values {
        return false, parts;
      }
      var value := Trim(u, row.values[fields[i]]);
      parts := parts + [value];
      if value != "" {
        empty := false;
      }
    }
    checked := !empty;
  }

  /** `at` remembers the first checked row of every key met in the first n rows. */
  ghost predicate Remembers(u: Unicode, rows: seq<MappedRow>, fields: seq<string>, n: nat, seen: map<string, int>,
                            at: map<string, nat>)
    requires n <= |rows|
  {
    && seen.Keys == at.Keys
    && (forall key :: key in at ==>
          && at[key] < n && Checked(u, rows[at[key]], fields) && Key(Tuple(u, rows[at[key]], fields)) == key
          && seen[key] == rows[at[key]].number)
    && (forall j :: 0 <= j < n && Checked(u, rows[j], fields) ==>
          var key := Key(Tuple(u, rows[j], fields)); key in at && at[key] <= j)
  }

  /** A remembered key points to the first row with that tuple. */
  lemma RememberedIsFirst(u: Unicode, rows: seq<MappedRow>, fields: seq<string>, k: nat, seen: map<string, int>,
                          at: map<string, nat>)
    requires k < |rows| && Remembers(u, rows, fields, k, seen, at) && Checked(u, rows[k], fields)
    ensures var key := Key(Tuple(u, rows[k], fields));
            FirstSame(u, rows, fields, k, 0) == if key in at then at[key] else k
  {
    hide Key, Checked, Tuple, FirstSame;
    var key := Key(Tuple(u, rows[k], fields));
    var first := FirstSame(u, rows, fields, k, 0);
    if key in at {
      KeyIsInjective(Tuple(u, rows[at[key]], fields), Tuple(u, rows[k], fields));
      assert Same(u, rows, fields, at[key], k);
    }
  }

  /** DuplicateRule.Validate. */
  method Validate(u: Unicode, fields: seq<string>, rows: seq<MappedRow>) returns (issues: seq<Issue>)
    ensures issues == if fields == [] then [InvalidRule] else Issues(u, rows, fields, |rows|)
  {
    hide Key, Checked, Tuple, FirstSame, Remembers;
    if fields == [] {
      return [InvalidRule];
    }
    issues := [];
    var seen: map<string, int> := map[];
    ghost var at: map<string, nat> := map[];
    NothingRemembered(u, rows, fields);
    for k := 0 to |rows|
      invariant issues == Issues(u, rows, fields, k) && Remembers(u, rows, fields, k, seen, at)
    {
      var checked, parts := Parts(u, rows[k], fields);
      RememberNext(u, rows, fields, k, seen, at);
      if !checked {
        UncheckedIsNoRepeat(u, rows, fields, k);
        continue;
      }
      var key := DuplicateKey(parts);
      RememberedIsFirst(u, rows, fields, k, seen, at);
      if key in seen {
        issues := issues + [DuplicateOf(rows[k].number, seen[key])];
        continue;
      }
      seen, at := seen[key := rows[k].number], at[key := k];
    }
  }

  lemma NothingRemembered(u: Unicode, rows: seq<MappedRow>, fields: seq<string>)
    ensures Remembers(u, rows, fields, 0, map[], map[])
  {
  }

  lemma UncheckedIsNoRepeat(u: Unicode, rows: seq<MappedRow>, fields: seq<string>, k: nat)
    requires k < |rows| && !Checked(u, rows[k], fields)
    ensures FirstSame(u, rows, fields, k, 0) == k
  {
    hide Checked, Tuple, FirstSame;
  }

  lemma RememberNext(u: Unicode, rows: seq<MappedRow>, fields: seq<string>, k: nat, seen: map<string, int>,
                     at: map<string, nat>)
    requires k < |rows| && Remembers(u, rows, fields, k, seen, at)
    ensures var key := Key(Tuple(u, rows[k], fields));
            && seen.Keys == at.Keys && (forall x :: x in at ==> at[x] < k && seen[x] == rows[at[x]].number)
            && (!Checked(u, rows[k], fields) || key in at ==> Remembers(u, rows, fields, k + 1, seen, at))
            && (Checked(u, rows[k], fields) && key !in at ==>
                  Remembers(u, rows, fields, k + 1, seen[key := rows[k].number], at[key := k]))
  {
    hide Key, Checked, Tuple;
  }
}
