/**
 Cell references of a worksheet (excelRef and columnIndex in internal/dataexchange/files.go; ST_CellRef
 in section 18.18.7 of ECMA-376 Part 1): columns in bijective base 26, rows in decimal.
 */
module CellRef {

  import opened Text

  const MAX_INT := 0x7fff_ffff_ffff_ffff

  /** 64-bit signed arithmetic. */
  function Wrap(n: int): int {
    (n + MAX_INT + 1) % (2 * MAX_INT + 2) - MAX_INT - 1
  }

  predicate AllCapitals(s: string) { forall i :: 0 <= i < |s| ==> Capital(s[i]) }

  function LetterOf(d: nat): (c: char)
    requires d < 26
    ensures Capital(c)
  {
    ('A' as int + d) as char
  }

  /** The column letters: A to Z, then AA and so on. */
  function Letters(column: nat): (s: string)
    ensures |s| >= 1 && AllCapitals(s)
  {
    if column < 26 then [LetterOf(column)] else Letters(column / 26 - 1) + [LetterOf(column % 26)]
  }

  /** The letters read as a number with digits 1 to 26. */
  function Rank(letters: string): int {
    if letters == "" then 0
    else Rank(letters[..|letters| - 1]) * 26 + (letters[|letters| - 1] as int - 'A' as int + 1)
  }

  /** A column's letters have the rank of the column. */
  lemma {:induction false} LettersReadBack(column: nat)
    ensures Rank(Letters(column)) == column + 1
  {
    if column >= 26 {
      LettersReadBack(column / 26 - 1);
      assert Letters(column)[..|Letters(column)| - 1] == Letters(column / 26 - 1);
    } else {
      assert Letters(column)[..0] == "";
    }
  }

  /** Every word of capitals names a column: the numbering has no gaps and no repetitions. */
  lemma {:induction false} EveryWordIsAColumn(word: string)
    requires |word| >= 1 && AllCapitals(word)
    ensures Rank(word) >= 1 && Letters(Rank(word) - 1) == word
  {
    var n := |word| - 1;
    var d := word[n] as int - 'A' as int;
    assert LetterOf(d) == word[n];
    if n == 0 {
      assert word[..0] == "" && word == [word[0]];
    } else {
      EveryWordIsAColumn(word[..n]);
      var before := Rank(word[..n]);
      var column := before * 26 + d;
      assert column == Rank(word) - 1 && column / 26 == before && column % 26 == d;
      assert word == word[..n] + [word[n]];
    }
  }

  lemma LettersStep(column: nat)
    ensures Letters(column) == (if column < 26 then "" else Letters(column / 26 - 1)) + [LetterOf(column % 26)]
  {
  }

  /** excelRef. */
  method ExcelRef(column: nat, row: nat) returns (ref: string)
    ensures ref == Letters(column) + Itoa(row)
  {
    hide Letters, Itoa;
    var result := "";
    var left: int := column;
    while left >= 0
      invariant left >= -1
      invariant Letters(column) == (if left >= 0 then Letters(left) else "") + result
      decreases left + 1
    {
      LettersStep(left);
      result := [LetterOf(left % 26)] + result;
      left := left / 26 - 1;
    }
    ref := result + Itoa(row);
  }

  // ----- reading

  function TrimDigits(s: string): string {
    if s != "" && Digit(s[|s| - 1]) then TrimDigits(s[..|s| - 1]) else s
  }

  function Uppercase(u: Unicode, s: string): (r: string)
    ensures |r| == |s| && forall i :: 0 <= i < |s| ==> r[i] == u.upper(s[i])
  {
    seq(|s|, i requires 0 <= i < |s| => u.upper(s[i]))
  }

  /** The letters of a reference: what is left of it in upper case without trailing digits. */
  function WordOf(u: Unicode, ref: string): string {
    TrimDigits(Uppercase(u, ref))
  }

  /** The column a reference means, -1 if it has no proper column. */
  ghost function ColumnOf(u: Unicode, ref: string): int {
    var word := WordOf(u, ref);
    if word == "" || !AllCapitals(word) then -1 else Wrap(Rank(word) - 1)
  }

  /** columnIndex. */
  method ColumnIndex(u: Unicode, ref: string) returns (index: int)
    ensures index == ColumnOf(u, ref)
  {
    hide Wrap, Uppercase;
    var word := WordOf(u, ref);
    if word == "" {
      return -1;
    }
    index := 0;
    WrapSmall(0);
    for i := 0 to |word|
      invariant AllCapitals(word[..i]) && index == Wrap(Rank(word[..i]))
    {
      if !Capital(word[i]) {
        return -1;
      }
      var d := word[i] as int - 'A' as int + 1;
      assert word[..i + 1][..i] == word[..i];
      WrapStep(Rank(word[..i]), d);
      index := Wrap(index * 26 + d);
    }
    assert word[..|word|] == word;
    WrapMinusOne(Rank(word));
    index := Wrap(index - 1);
  }

  lemma WrapSmall(n: int)
    requires -MAX_INT - 1 <= n <= MAX_INT
    ensures Wrap(n) == n
  {
  }

  lemma SameWrap(a: int, b: int, k: int)
    requires b == a + k * (2 * MAX_INT + 2)
    ensures Wrap(a) == Wrap(b)
  {
  }

  /** Wrapping at every step is wrapping once at the end. */
  lemma WrapStep(n: int, d: int)
    ensures Wrap(Wrap(n) * 26 + d) == Wrap(n * 26 + d)
  {
    var k := (n - Wrap(n)) / (2 * MAX_INT + 2);
    assert n == Wrap(n) + k * (2 * MAX_INT + 2);
    SameWrap(Wrap(n) * 26 + d, n * 26 + d, k * 26);
  }

  lemma WrapMinusOne(n: int)
    ensures Wrap(Wrap(n) - 1) == Wrap(n - 1)
  {
    var k := (n - Wrap(n)) / (2 * MAX_INT + 2);
    assert n == Wrap(n) + k * (2 * MAX_INT + 2);
    SameWrap(Wrap(n) - 1, n - 1, k);
  }

  /** The index is the column meant exactly when that column fits in 64 bits. */
  lemma ExactWhenItFits(word: string)
    requires |word| >= 1 && AllCapitals(word)
    ensures Wrap(Rank(word) - 1) == Rank(word) - 1 <==> Rank(word) - 1 <= MAX_INT
  {
    hide Wrap, Rank, Letters;
    EveryWordIsAColumn(word);
    WrapInRange(Rank(word) - 1);
    if Rank(word) - 1 <= MAX_INT {
      WrapSmall(Rank(word) - 1);
    }
  }

  /** Beyond that, references collide: a column 2^64 further on reads as the same index. */
  lemma FarColumnsCollide(column: nat)
    ensures var far := column + 2 * MAX_INT + 2;
            && Letters(far) != Letters(column)
            && Wrap(Rank(Letters(far)) - 1) == Wrap(Rank(Letters(column)) - 1)
  {
    hide Wrap, Rank, Letters;
    var far := column + 2 * MAX_INT + 2;
    LettersReadBack(column);
    LettersReadBack(far);
    SameWrap(column, far, 1);
  }

  lemma WrapInRange(n: int)
    ensures -MAX_INT - 1 <= Wrap(n) <= MAX_INT
  {
  }

  lemma WordOfRef(u: Unicode, column: nat, row: nat)
    requires Faithful(u)
    ensures WordOf(u, Letters(column) + Itoa(row)) == Letters(column)
  {
    hide Letters, Itoa;
    var word, digits := Letters(column), Itoa(row);
    assert Uppercase(u, word + digits) == word + digits;
    TrimmedToWord(word, digits);
  }

  lemma {:induction false} TrimmedToWord(word: string, digits: string)
    requires |word| >= 1 && AllCapitals(word) && AllDigits(digits)
    ensures TrimDigits(word + digits) == word
    decreases |digits|
  {
    if digits == "" {
      assert word + digits == word;
    } else {
      var n := |digits| - 1;
      TrimmedToWord(word, digits[..n]);
      assert (word + digits)[..|word| + n] == word + digits[..n];
    }
  }

  /** Reading a written reference gives the column back, for every column that fits and every row. */
  lemma WrittenRefReadsBack(u: Unicode, column: nat, row: nat)
    requires Faithful(u) && column <= MAX_INT
    ensures ColumnOf(u, Letters(column) + Itoa(row)) == column
  {
    hide Wrap, Rank, WordOf;
    WordOfRef(u, column, row);
    LettersReadBack(column);
    WrapSmall(column);
  }
}
