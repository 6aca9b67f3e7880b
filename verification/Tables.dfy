/**
 Rectangular tables with usable headers (NewTable and validate in internal/dataexchange/table.go,
 normalizeHeader in mapping.go).
 */
module Tables {

  import opened Text
  import opened Wrappers

  datatype Row = Row(number: int, values: seq<string>)
  datatype Table = Table(headers: seq<string>, rows: seq<Row>)

  // ----- normal forms of headers

  ghost function Fold(c: char): char {
    match c
    case 'ç' => 'c'
    case 'ğ' => 'g'
    case 'ı' => 'i'
    case 'ö' => 'o'
    case 'ş' => 's'
    case 'ü' => 'u'
    case _ => c
  }

  /** What one character leaves in the normal form. */
  ghost function Kept(u: Unicode, c: char): string {
    var folded := Fold(u.lower(c));
    if u.isLetter(folded) || u.isDigit(folded) then [folded] else ""
  }

  ghost function Norm(u: Unicode, s: string): string {
    if s == "" then "" else Norm(u, s[..|s| - 1]) + Kept(u, s[|s| - 1])
  }

  method NormalizeHeader(u: Unicode, value: string) returns (r: string)
    requires Faithful(u)
    ensures r == Norm(u, value)
  {
    var s := Trim(u, value);
    TrimLeavesNorm(u, value);
    r := "";
    for i := 0 to |s|
      invariant r == Norm(u, s[..i])
    {
      assert s[..i + 1][..i] == s[..i];
      var c := u.lower(s[i]);
      match c {
        case 'ç' => c := 'c';
        case 'ğ' => c := 'g';
        case 'ı' => c := 'i';
        case 'ö' => c := 'o';
        case 'ş' => c := 's';
        case 'ü' => c := 'u';
        case _ =>
      }
      if u.isLetter(c) || u.isDigit(c) {
        r := r + [c];
      }
    }
    assert s[..|s|] == s;
  }

  lemma {:induction false} NormAppend(u: Unicode, x: string, y: string)
    ensures Norm(u, x + y) == Norm(u, x) + Norm(u, y)
  {
    hide Kept;
    if y == "" {
      assert x + y == x;
    } else {
      var n := |y| - 1;
      NormAppend(u, x, y[..n]);
      assert (x + y)[..|x| + n] == x + y[..n];
    }
  }

  lemma NormOne(u: Unicode, c: char)
    ensures Norm(u, [c]) == Kept(u, c)
  {
    assert [c][..0] == "";
  }

  lemma {:induction false} TrimLeftLeavesNorm(u: Unicode, s: string)
    requires Faithful(u)
    ensures Norm(u, TrimLeft(u, s)) == Norm(u, s)
  {
    if s != "" && u.isSpace(s[0]) {
      TrimLeftLeavesNorm(u, s[1..]);
      assert s == [s[0]] + s[1..];
      NormAppend(u, [s[0]], s[1..]);
      NormOne(u, s[0]);
      SpaceIsDropped(u, s[0]);
    }
  }

  lemma SpaceIsDropped(u: Unicode, c: char)
    requires Faithful(u) && u.isSpace(c)
    ensures Kept(u, c) == ""
  {
    assert !Accented(c);
  }

  lemma DigitIsKept(u: Unicode, c: char)
    requires Faithful(u) && Digit(c)
    ensures Kept(u, c) == [c]
  {
    assert !Accented(c);
  }

  lemma {:induction false} TrimRightLeavesNorm(u: Unicode, s: string)
    requires Faithful(u)
    ensures Norm(u, TrimRight(u, s)) == Norm(u, s)
  {
    if s != "" && u.isSpace(s[|s| - 1]) {
      TrimRightLeavesNorm(u, s[..|s| - 1]);
      SpaceIsDropped(u, s[|s| - 1]);
    }
  }

  lemma TrimLeavesNorm(u: Unicode, s: string)
    requires Faithful(u)
    ensures Norm(u, Trim(u, s)) == Norm(u, s)
  {
    TrimLeftLeavesNorm(u, s);
    TrimRightLeavesNorm(u, TrimLeft(u, s));
  }

  lemma {:induction false} DigitsAreKept(u: Unicode, s: string)
    requires Faithful(u) && AllDigits(s)
    ensures Norm(u, s) == s
  {
    hide Kept, Faithful;
    if s != "" {
      var n := |s| - 1;
      DigitsAreKept(u, s[..n]);
      DigitIsKept(u, s[n]);
      assert s == s[..n] + [s[n]];
    }
  }

  /** The suffix that tells repeated headers apart. */
  function Suffix(n: nat): string {
    " (" + Itoa(n) + ")"
  }

  /** A numbered header has the number at the end of its normal form. */
  lemma NormOfNumbered(u: Unicode, header: string, n: nat)
    requires Faithful(u)
    ensures Norm(u, header + Suffix(n)) == Norm(u, header) + Itoa(n)
  {
    hide Norm, Itoa;
    NormAppend(u, header, Suffix(n));
    NormAppend(u, " (" + Itoa(n), ")");
    NormAppend(u, " (", Itoa(n));
    DigitsAreKept(u, Itoa(n));
    BracketsAreDropped(u);
  }

  lemma BracketsAreDropped(u: Unicode)
    requires Faithful(u)
    ensures Norm(u, " (") == "" && Norm(u, ")") == ""
  {
    NormOne(u, ' ');
    NormOne(u, '(');
    NormOne(u, ')');
    NormAppend(u, " ", "(");
    assert " " + "(" == " (";
  }

  // ----- tables

  /** Usable headers: not blank, with a normal form of their own. */
  ghost predicate HeadersOk(u: Unicode, headers: seq<string>) {
    && (forall i :: 0 <= i < |headers| ==> Trim(u, headers[i]) != "" && Norm(u, headers[i]) != "")
    && (forall i, j :: 0 <= i < j < |headers| ==> Norm(u, headers[i]) != Norm(u, headers[j]))
  }

  ghost predicate ValidTable(u: Unicode, t: Table) {
    && |t.headers| > 0 && HeadersOk(u, t.headers)
    && forall i :: 0 <= i < |t.rows| ==> |t.rows[i].values| == |t.headers|
  }

  /** What NewTable builds: a valid table, everything trimmed, rows numbered from 2. */
  ghost predicate Built(u: Unicode, t: Table) {
    && ValidTable(u, t)
    && (forall i :: 0 <= i < |t.headers| ==> Trimmed(u, t.headers[i]))
    && (forall i :: 0 <= i < |t.rows| ==> t.rows[i].number == i + 2)
    && (forall i, j :: 0 <= i < |t.rows| && 0 <= j < |t.rows[i].values| ==> Trimmed(u, t.rows[i].values[j]))
  }

  function Trims(u: Unicode, cells: seq<string>): (r: seq<string>)
    ensures |r| == |cells| && forall i :: 0 <= i < |r| ==> r[i] == Trim(u, cells[i])
  {
    seq(|cells|, i requires 0 <= i < |cells| => Trim(u, cells[i]))
  }

  /** A record as a row: trimmed and padded to the width. */
  function Padded(u: Unicode, record: seq<string>, width: nat): (r: seq<string>)
    ensures |record| <= width ==> |r| == width
  {
    Trims(u, record) + seq(if width >= |record| then width - |record| else 0, i => "")
  }

  ghost predicate Fits(headers: seq<string>, records: seq<seq<string>>) {
    forall i :: 0 <= i < |records| ==> |records[i]| <= |headers|
  }

  ghost predicate Holds(u: Unicode, t: Table, headers: seq<string>, records: seq<seq<string>>) {
    && t.headers == Trims(u, headers) && |t.rows| == |records|
    && forall i :: 0 <= i < |records| ==> t.rows[i] == Row(i + 2, Padded(u, records[i], |headers|))
  }

  /** NewTable succeeds exactly for usable headers and records no wider than them. */
  method NewTable(u: Unicode, headers: seq<string>, records: seq<seq<string>>) returns (r: Result<Table>)
    requires Faithful(u)
    ensures r.Ok? <==> |headers| > 0 && HeadersOk(u, headers) && Fits(headers, records)
    ensures r.Ok? ==> Holds(u, r.value, headers, records) && Built(u, r.value)
  {
    hide Trim, Norm, Padded;
    if |headers| == 0 {
      return Err;
    }
    var ok := CheckHeaders(u, headers);
    if !ok {
      return Err;
    }
    var rows := [];
    for i := 0 to |records|
      invariant |rows| == i && forall k :: 0 <= k < i ==>
                  |records[k]| <= |headers| && rows[k] == Row(k + 2, Padded(u, records[k], |headers|))
    {
      if |records[i]| > |headers| {
        return Err;
      }
      rows := rows + [Row(i + 2, Padded(u, records[i], |headers|))];
    }
    var t := Table(Trims(u, headers), rows);
    HoldsIsBuilt(u, t, headers, records);
    return Ok(t);
  }

  /** The header loop shared by NewTable and validate. */
  method CheckHeaders(u: Unicode, headers: seq<string>) returns (ok: bool)
    requires Faithful(u)
    ensures ok <==> HeadersOk(u, headers)
  {
    hide Trim, Norm;
    var seen: set<string> := {};
    for i := 0 to |headers|
      invariant HeadersOk(u, headers[..i])
      invariant seen == NormsOf(u, headers[..i])
    {
      if Trim(u, headers[i]) == "" {
        return false;
      }
      var key := NormalizeHeader(u, Trim(u, headers[i]));
      TrimLeavesNorm(u, headers[i]);
      if key == "" {
        return false;
      }
      if key in seen {
        ghost var k :| 0 <= k < i && Norm(u, headers[..i][k]) == key;
        return false;
      }
      assert headers[..i + 1] == headers[..i] + [headers[i]];
      NormsGrow(u, headers[..i], headers[i]);
      seen := seen + {key};
    }
    assert headers[..|headers|] == headers;
    return true;
  }

  ghost function NormsOf(u: Unicode, headers: seq<string>): set<string> {
    set k | 0 <= k < |headers| :: Norm(u, headers[k])
  }

  lemma {:induction false} NormsGrow(u: Unicode, headers: seq<string>, h: string)
    ensures NormsOf(u, headers + [h]) == NormsOf(u, headers) + {Norm(u, h)}
  {
    hide Norm;
    var more := headers + [h];
    forall x | x in NormsOf(u, headers) ensures x in NormsOf(u, more) {
      var k :| 0 <= k < |headers| && Norm(u, headers[k]) == x;
      assert more[k] == headers[k];
    }
    assert more[|headers|] == h;
  }

  lemma HoldsIsBuilt(u: Unicode, t: Table, headers: seq<string>, records: seq<seq<string>>)
    requires Faithful(u) && |headers| > 0 && HeadersOk(u, headers) && Fits(headers, records)
    requires Holds(u, t, headers, records)
    ensures Built(u, t)
  {
    hide Trim, Norm;
    forall i | 0 <= i < |headers|
      ensures Norm(u, t.headers[i]) == Norm(u, headers[i]) && Trimmed(u, t.headers[i])
      ensures Trim(u, t.headers[i]) == t.headers[i]
    {
      TrimLeavesNorm(u, headers[i]);
      TrimIsTrimmed(u, headers[i]);
      TrimmedStays(u, t.headers[i]);
    }
    forall i, j | 0 <= i < |t.rows| && 0 <= j < |t.rows[i].values| ensures Trimmed(u, t.rows[i].values[j]) {
      if j < |records[i]| {
        TrimIsTrimmed(u, records[i][j]);
      }
    }
  }

  /** A built table, taken apart and built again, is itself. */
  lemma BuiltAgain(u: Unicode, t: Table, s: Table)
    requires Built(u, t)
    requires Holds(u, s, t.headers, seq(|t.rows|, i requires 0 <= i < |t.rows| => t.rows[i].values))
    ensures s == t
  {
    hide Trim;
    assert Trims(u, t.headers) == t.headers by {
      forall i | 0 <= i < |t.headers| ensures Trim(u, t.headers[i]) == t.headers[i] { TrimmedStays(u, t.headers[i]); }
    }
    forall i | 0 <= i < |t.rows| ensures s.rows[i] == t.rows[i] {
      var values := t.rows[i].values;
      forall j | 0 <= j < |values| ensures Trim(u, values[j]) == values[j] { TrimmedStays(u, values[j]); }
      assert Padded(u, values, |t.headers|) == values;
    }
    assert s.rows == t.rows;
  }

  // ----- records of any width

  function Width(records: seq<seq<string>>): (w: nat)
    ensures forall i :: 0 <= i < |records| ==> |records[i]| <= w
    ensures w == 0 || exists i :: 0 <= i < |records| && |records[i]| == w
  {
    if records == [] then 0
    else
      var n := |records| - 1;
      var w := Width(records[..n]);
      assert forall i :: 0 <= i < n ==> records[..n][i] == records[i];
      if |records[n]| > w then |records[n]| else w
  }

  /** validate. */
  method Validate(u: Unicode, t: Table) returns (ok: bool)
    requires Faithful(u)
    ensures ok <==> ValidTable(u, t)
  {
    if |t.headers| == 0 {
      return false;
    }
    ok := CheckHeaders(u, t.headers);
    if !ok {
      return false;
    }
    for i := 0 to |t.rows|
      invariant forall k :: 0 <= k < i ==> |t.rows[k].values| == |t.headers|
    {
      if |t.rows[i].values| != |t.headers| {
        return false;
      }
    }
    return true;
  }
}
