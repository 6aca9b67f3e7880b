/** Text helpers of the standard library that the tabular exchange relies on. */
module Text {

  // ----- decimal numbers

  predicate Digit(c: char) { '0' <= c <= '9' }
  predicate Capital(c: char) { 'A' <= c <= 'Z' }

  function DigitOf(d: nat): (c: char)
    requires d < 10
    ensures Digit(c)
  {
    ('0' as int + d) as char
  }

  /** strconv.Itoa of a number that is not negative. */
  function Itoa(n: nat): (s: string)
    ensures |s| >= 1 && AllDigits(s)
  {
    if n < 10 then [DigitOf(n)] else Itoa(n / 10) + [DigitOf(n % 10)]
  }

  predicate AllDigits(s: string) {
    forall i :: 0 <= i < |s| ==> Digit(s[i])
  }

  function NumberOf(s: string): int {
    if s == "" then 0 else NumberOf(s[..|s| - 1]) * 10 + (s[|s| - 1] as int - '0' as int)
  }

  lemma {:induction false} ItoaReadsBack(n: nat)
    ensures NumberOf(Itoa(n)) == n
  {
    if n >= 10 {
      ItoaReadsBack(n / 10);
      assert Itoa(n)[..|Itoa(n)| - 1] == Itoa(n / 10);
    } else {
      assert Itoa(n)[..0] == "";
    }
  }

  lemma ItoaIsInjective(m: nat, n: nat)
    requires Itoa(m) == Itoa(n)
    ensures m == n
  {
    ItoaReadsBack(m);
    ItoaReadsBack(n);
  }

  // ----- character tables

  /** The parts of the Unicode tables in use. */
  datatype Unicode = Unicode(isSpace: char -> bool, isLetter: char -> bool, isDigit: char -> bool,
                             lower: char -> char, upper: char -> char)

  /** The Turkish letters that headers spell without their marks. */
  predicate Accented(c: char) {
    c == 'ç' || c == 'ğ' || c == 'ı' || c == 'ö' || c == 'ş' || c == 'ü'
  }

  ghost predicate Faithful(u: Unicode) {
    && (forall c :: Accented(c) ==> u.isLetter(c))
    && (forall c :: u.isSpace(c) ==> u.lower(c) == c && u.upper(c) == c && !u.isLetter(c) && !u.isDigit(c))
    && (forall c :: Digit(c) ==> u.isDigit(c) && !u.isSpace(c) && u.lower(c) == c && u.upper(c) == c)
    && (forall c :: Capital(c) ==> u.upper(c) == c && u.isLetter(c))
    && u.isSpace(' ')
    && (forall c :: c == '(' || c == ')' ==> u.lower(c) == c && !u.isSpace(c) && !u.isLetter(c) && !u.isDigit(c))
  }

  // ----- strings.TrimSpace

  function TrimLeft(u: Unicode, s: string): string {
    if s != "" && u.isSpace(s[0]) then TrimLeft(u, s[1..]) else s
  }

  function TrimRight(u: Unicode, s: string): string {
    if s != "" && u.isSpace(s[|s| - 1]) then TrimRight(u, s[..|s| - 1]) else s
  }

  function Trim(u: Unicode, s: string): string {
    TrimRight(u, TrimLeft(u, s))
  }

  /** Nothing to trim. */
  predicate Trimmed(u: Unicode, s: string) {
    s == "" || (!u.isSpace(s[0]) && !u.isSpace(s[|s| - 1]))
  }

  lemma {:induction false} TrimRightFacts(u: Unicode, s: string)
    requires s == "" || !u.isSpace(s[0])
    ensures Trimmed(u, TrimRight(u, s))
    ensures s != "" ==> TrimRight(u, s) != ""
  {
    if s != "" && u.isSpace(s[|s| - 1]) {
      TrimRightFacts(u, s[..|s| - 1]);
    }
  }

  lemma {:induction false} TrimLeftFacts(u: Unicode, s: string)
    ensures TrimLeft(u, s) == "" || !u.isSpace(TrimLeft(u, s)[0])
  {
    if s != "" && u.isSpace(s[0]) {
      TrimLeftFacts(u, s[1..]);
    }
  }

  lemma TrimIsTrimmed(u: Unicode, s: string)
    ensures Trimmed(u, Trim(u, s))
  {
    TrimLeftFacts(u, s);
    TrimRightFacts(u, TrimLeft(u, s));
  }

  ghost predicate AllSpace(u: Unicode, s: string) {
    forall i :: 0 <= i < |s| ==> u.isSpace(s[i])
  }

  lemma {:induction false} TrimRightSplits(u: Unicode, s: string) returns (b: string)
    ensures s == TrimRight(u, s) + b && AllSpace(u, b)
  {
    b := "";
    if s != "" && u.isSpace(s[|s| - 1]) {
      b := TrimRightSplits(u, s[..|s| - 1]);
      b := b + [s[|s| - 1]];
    }
  }

  lemma {:induction false} TrimLeftSplits(u: Unicode, s: string) returns (a: string)
    ensures s == a + TrimLeft(u, s) && AllSpace(u, a)
  {
    a := "";
    if s != "" && u.isSpace(s[0]) {
      a := TrimLeftSplits(u, s[1..]);
      a := [s[0]] + a;
    }
  }

  /** Trimming takes white space off both ends and nothing else. */
  lemma TrimSplits(u: Unicode, s: string) returns (a: string, b: string)
    ensures s == a + Trim(u, s) + b && AllSpace(u, a) && AllSpace(u, b)
  {
    a := TrimLeftSplits(u, s);
    b := TrimRightSplits(u, TrimLeft(u, s));
  }

  lemma TrimmedStays(u: Unicode, s: string)
    requires Trimmed(u, s)
    ensures Trim(u, s) == s
  {
  }
}
