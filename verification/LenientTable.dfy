/** Tables from hand-made sheets (lenientTable in internal/dataexchange/files.go). */
module LenientTable {

  import opened Text
  import opened Tables
  import opened Wrappers

  const COLUMN_WORD := "Sütun "

  ghost predicate BlankRecord(u: Unicode, record: seq<string>) {
    forall i :: 0 <= i < |record| ==> Trim(u, record[i]) == ""
  }

  method IsBlank(u: Unicode, record: seq<string>) returns (blank: bool)
    ensures blank <==> BlankRecord(u, record)
  {
    hide Trim;
    for i := 0 to |record|
      invariant forall k :: 0 <= k < i ==> Trim(u, record[k]) == ""
    {
      if Trim(u, record[i]) != "" {
        return false;
      }
    }
    return true;
  }

  ghost function NonBlank(u: Unicode, records: seq<seq<string>>): seq<seq<string>> {
    if records == [] then []
    else
      var n := |records| - 1;
      NonBlank(u, records[..n]) + if BlankRecord(u, records[n]) then [] else [records[n]]
  }

  // ----- one header

  /** The wanted header itself, or with a number added. */
  ghost predicate Numbered(header: string, wanted: string) {
    header == wanted || exists n: nat :: n >= 2 && header == wanted + Suffix(n)
  }

  ghost predicate Usable(u: Unicode, header: string) {
    header != "" && Trimmed(u, header) && Norm(u, header) != ""
  }

  lemma NumberedIsUsable(u: Unicode, header: string, n: nat)
    requires Faithful(u) && Usable(u, header)
    ensures Usable(u, header + Suffix(n))
  {
    hide Norm, Itoa;
    NormOfNumbered(u, header, n);
    var h := header + Suffix(n);
    assert h[0] == header[0] && h[|h| - 1] == ')';
  }

  /** The normal forms of the numbered headers all differ, and differ from that of the plain one. */
  lemma NumbersTellApart(u: Unicode, header: string, m: nat, n: nat)
    requires Faithful(u)
    ensures Norm(u, header + Suffix(n)) != Norm(u, header)
    ensures m != n ==> Norm(u, header + Suffix(m)) != Norm(u, header + Suffix(n))
  {
    hide Norm, Itoa;
    NormOfNumbered(u, header, m);
    NormOfNumbered(u, header, n);
    var h := Norm(u, header);
    assert |h + Itoa(n)| > |h|;
    if m != n && h + Itoa(m) == h + Itoa(n) {
      assert Itoa(m) == (h + Itoa(m))[|h|..] && Itoa(n) == (h + Itoa(n))[|h|..];
      ItoaIsInjective(m, n);
    }
  }

  /**
   The renaming loop. It ends because every round meets a different key of the finite set `seen`.
   */
  method UniqueHeader(u: Unicode, header: string, seen: set<string>) returns (unique: string, key: string)
    requires Faithful(u) && Usable(u, header)
    ensures Usable(u, unique) && Numbered(unique, header)
    ensures key == Norm(u, unique) && key !in seen
    ensures Norm(u, header) !in seen ==> unique == header
  {
    hide Norm, Suffix;
    unique := header;
    key := NormalizeHeader(u, unique);
    var n: nat := 2;
    ghost var left := seen;
    while key in seen
      invariant n >= 2 && left <= seen && key == Norm(u, unique) && Usable(u, unique)
      invariant unique == if n == 2 then header else header + Suffix(n - 1)
      invariant key in seen ==> key in left
      invariant forall m: nat :: m >= n && Norm(u, header + Suffix(m)) in seen ==> Norm(u, header + Suffix(m)) in left
      invariant n > 2 ==> Norm(u, header) in seen
      decreases |left|
    {
      forall m: nat | m >= n ensures Norm(u, header + Suffix(m)) != key {
        NumbersTellApart(u, header, n - 1, m);
      }
      left := left - {key};
      NumberedIsUsable(u, header, n);
      unique := header + Suffix(n);
      key := NormalizeHeader(u, unique);
      n := n + 1;
    }
  }

  // ----- the header row

  /** The heading a column asks for: its own if usable, else its number. */
  ghost function Wanted(u: Unicode, first: seq<string>, index: nat): string {
    var own := if index < |first| then Trim(u, first[index]) else "";
    if Norm(u, own) == "" then COLUMN_WORD + Itoa(index + 1) else own
  }

  lemma WantedIsUsable(u: Unicode, first: seq<string>, index: nat)
    requires Faithful(u)
    ensures Usable(u, Wanted(u, first, index))
  {
    hide Norm, Trim, Itoa;
    var own := if index < |first| then Trim(u, first[index]) else "";
    if index < |first| { TrimIsTrimmed(u, first[index]); }
    if Norm(u, own) == "" {
      NormAppend(u, COLUMN_WORD, Itoa(index + 1));
      DigitsAreKept(u, Itoa(index + 1));
      ColumnWordIsTrimmed(u, Itoa(index + 1));
    } else {
      NothingLeft(u);
    }
  }

  lemma NothingLeft(u: Unicode)
    ensures Norm(u, "") == ""
  {
  }

  lemma ColumnWordIsTrimmed(u: Unicode, digits: string)
    requires Faithful(u) && |digits| >= 1 && AllDigits(digits)
    ensures Trimmed(u, COLUMN_WORD + digits)
  {
    var s := COLUMN_WORD + digits;
    assert s[0] == 'S' && s[|s| - 1] == digits[|digits| - 1];
  }

  ghost predicate HeadersFor(u: Unicode, headers: seq<string>, first: seq<string>) {
    forall i :: 0 <= i < |headers| ==> Usable(u, headers[i]) && Numbered(headers[i], Wanted(u, first, i))
  }

  ghost predicate DistinctNorms(u: Unicode, headers: seq<string>) {
    forall i, j :: 0 <= i < j < |headers| ==> Norm(u, headers[i]) != Norm(u, headers[j])
  }

  method MakeHeaders(u: Unicode, first: seq<string>, width: nat) returns (headers: seq<string>)
    requires Faithful(u)
    ensures |headers| == width && HeadersFor(u, headers, first) && DistinctNorms(u, headers)
  {
    hide Norm, Trim, Itoa, Usable, Numbered;
    headers := [];
    var seen: set<string> := {};
    for i := 0 to width
      invariant |headers| == i && HeadersFor(u, headers, first) && DistinctNorms(u, headers)
      invariant forall k :: 0 <= k < i ==> Norm(u, headers[k]) in seen
    {
      var header := "";
      if i < |first| {
        header := Trim(u, first[i]);
      }
      var norm := NormalizeHeader(u, header);
      if norm == "" {
        header := COLUMN_WORD + Itoa(i + 1);
      }
      WantedIsUsable(u, first, i);
      var unique, key := UniqueHeader(u, header, seen);
      seen := seen + {key};
      headers := headers + [unique];
    }
  }

  lemma UsableHeadersAreOk(u: Unicode, headers: seq<string>, first: seq<string>)
    requires HeadersFor(u, headers, first) && DistinctNorms(u, headers)
    ensures HeadersOk(u, headers)
    ensures Trims(u, headers) == headers
  {
    hide Norm, Trim, Numbered, Wanted;
    forall i | 0 <= i < |headers| ensures Trim(u, headers[i]) == headers[i] {
      TrimmedStays(u, headers[i]);
    }
  }

  // ----- the table

  /** The first record that is not blank; everything before it is skipped. */
  ghost predicate StartsAt(u: Unicode, records: seq<seq<string>>, s: nat) {
    s < |records| && !BlankRecord(u, records[s]) && forall i :: 0 <= i < s ==> BlankRecord(u, records[i])
  }

  /** The table of the records from `s` on: their width, usable headers, every later non-blank record in order. */
  ghost predicate TableOf(u: Unicode, t: Table, records: seq<seq<string>>, s: nat)
    requires s < |records|
  {
    var width := Width(records[s..]);
    var kept := NonBlank(u, records[s + 1..]);
    && ValidTable(u, t) && |t.headers| == width && HeadersFor(u, t.headers, records[s])
    && |t.rows| == |kept|
    && forall i :: 0 <= i < |kept| ==> t.rows[i] == Row(i + 2, Padded(u, kept[i], width))
  }

  method MakeLenientTable(u: Unicode, records: seq<seq<string>>) returns (r: Result<Table>)
    requires Faithful(u)
    ensures r.Ok? <==> exists s: nat :: StartsAt(u, records, s)
    ensures forall s: nat :: StartsAt(u, records, s) ==> r.Ok? && TableOf(u, r.value, records, s)
  {
    hide BlankRecord, Norm, Trim, Padded, HeadersFor, Width, DistinctNorms;
    var s := 0;
    while s < |records|
      invariant s <= |records| && forall i :: 0 <= i < s ==> BlankRecord(u, records[i])
    {
      var blank := IsBlank(u, records[s]);
      if !blank {
        break;
      }
      s := s + 1;
    }
    if s == |records| {
      return Err;
    }
    assert StartsAt(u, records, s);
    var width := Width(records[s..]);
    NotBlankIsWide(u, records, s);
    var headers := MakeHeaders(u, records[s], width);
    UsableHeadersAreOk(u, headers, records[s]);
    var rows := KeepNonBlank(u, records[s + 1..]);
    KeptAreNarrow(u, records[s + 1..]);
    WidthOfRest(records, s);
    r := NewTable(u, headers, rows);
  }

  method KeepNonBlank(u: Unicode, records: seq<seq<string>>) returns (rows: seq<seq<string>>)
    ensures rows == NonBlank(u, records)
  {
    hide BlankRecord;
    rows := [];
    for i := 0 to |records|
      invariant rows == NonBlank(u, records[..i])
    {
      assert records[..i + 1][..i] == records[..i];
      var blank := IsBlank(u, records[i]);
      if !blank {
        rows := rows + [records[i]];
      }
    }
    assert records[..|records|] == records;
  }

  lemma NotBlankIsWide(u: Unicode, records: seq<seq<string>>, s: nat)
    requires StartsAt(u, records, s)
    ensures Width(records[s..]) > 0
  {
    assert records[s..][0] == records[s];
  }

  lemma {:induction false} KeptAreNarrow(u: Unicode, records: seq<seq<string>>)
    ensures forall i :: 0 <= i < |NonBlank(u, records)| ==> |NonBlank(u, records)[i]| <= Width(records)
  {
    hide BlankRecord;
    if records != [] {
      var n := |records| - 1;
      KeptAreNarrow(u, records[..n]);
    }
  }

  lemma WidthOfRest(records: seq<seq<string>>, s: nat)
    requires s < |records|
    ensures Width(records[s + 1..]) <= Width(records[s..])
  {
    hide Width;
    var rest, all := records[s + 1..], records[s..];
    if Width(rest) > 0 {
      var i :| 0 <= i < |rest| && |rest[i]| == Width(rest);
      assert all[i + 1] == rest[i];
    }
  }
}
