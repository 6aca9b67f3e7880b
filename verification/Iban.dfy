/**
 IBAN normalisation and its check digits (NormalizeIBAN in internal/finance/account_core.go): the
 pure system MOD 97-10 of ISO/IEC 7064 as ISO 13616-1 applies it, and which typing errors it
 catches.
 */
module Iban {

  import opened Text

  // ----- characters and the number they spell

  predicate Spelled(s: string) { forall i :: 0 <= i < |s| ==> Digit(s[i]) || Capital(s[i]) }

  function Value(c: char): int {
    if Digit(c) then c as int - '0' as int else c as int - 'A' as int + 10
  }

  /** A digit stands for itself, a letter for two decimal digits. */
  function Expand(c: char): seq<int> {
    if Digit(c) then [Value(c)] else [Value(c) / 10, Value(c) % 10]
  }

  function Expansion(s: string): seq<int> {
    if s == "" then [] else Expansion(s[..|s| - 1]) + Expand(s[|s| - 1])
  }

  function Decimal(digits: seq<int>): int {
    if digits == [] then 0 else Decimal(digits[..|digits| - 1]) * 10 + digits[|digits| - 1]
  }

  /** The integer a string spells, letters written out as two digits. */
  function Number(s: string): int {
    Decimal(Expansion(s))
  }

  function Pow10(k: nat): int {
    if k == 0 then 1 else Pow10(k - 1) * 10
  }

  function Weight(s: string): int {
    Pow10(|Expansion(s)|)
  }

  lemma DecimalSnoc(digits: seq<int>, d: int)
    ensures Decimal(digits + [d]) == Decimal(digits) * 10 + d
  {
    assert (digits + [d])[..|digits|] == digits;
  }

  lemma ExpansionSnoc(s: string, c: char)
    ensures Expansion(s + [c]) == Expansion(s) + Expand(c)
  {
    assert (s + [c])[..|s|] == s;
  }

  lemma NumberSnoc(s: string, c: char)
    ensures Number(s + [c]) == if Digit(c) then Number(s) * 10 + Value(c) else Number(s) * 100 + Value(c)
  {
    hide Decimal, Expansion;
    ExpansionSnoc(s, c);
    var e := Expansion(s);
    if Digit(c) {
      DecimalSnoc(e, Value(c));
    } else {
      assert e + Expand(c) == e + [Value(c) / 10] + [Value(c) % 10];
      DecimalSnoc(e, Value(c) / 10);
      DecimalSnoc(e + [Value(c) / 10], Value(c) % 10);
    }
  }

  lemma WeightSnoc(s: string, c: char)
    ensures Weight(s + [c]) == if Digit(c) then Weight(s) * 10 else Weight(s) * 100
  {
    hide Expansion;
    ExpansionSnoc(s, c);
    var k := |Expansion(s)|;
    assert Pow10(k + 1) == Pow10(k) * 10 && Pow10(k + 2) == Pow10(k + 1) * 10;
  }

  lemma {:induction false} NumberAppend(x: string, y: string)
    ensures Number(x + y) == Number(x) * Weight(y) + Number(y)
  {
    hide Decimal, Expansion, Pow10, Number, Weight;
    if y == "" {
      assert x + y == x;
      EmptySpellsZero();
    } else {
      var n := |y| - 1;
      NumberAppend(x, y[..n]);
      assert x + y == (x + y[..n]) + [y[n]] && y == y[..n] + [y[n]];
      NumberSnoc(x + y[..n], y[n]);
      NumberSnoc(y[..n], y[n]);
      WeightSnoc(y[..n], y[n]);
      Distribute(Number(x), Weight(y[..n]), Number(y[..n]));
    }
  }

  lemma EmptySpellsZero()
    ensures Number("") == 0 && Weight("") == 1
  {
  }

  lemma Distribute(a: int, w: int, b: int)
    ensures (a * w + b) * 10 == a * (w * 10) + b * 10
    ensures (a * w + b) * 100 == a * (w * 100) + b * 100
  {
  }

  // ----- the check

  /** The country code and check digits move to the end. */
  function Reordered(iban: string): string
    requires |iban| >= 4
  {
    iban[4..] + iban[..4]
  }

  predicate Shaped(iban: string) {
    && 15 <= |iban| <= 34 && Spelled(iban)
    && Capital(iban[0]) && Capital(iban[1]) && Digit(iban[2]) && Digit(iban[3])
  }

  ghost predicate ValidIban(iban: string) {
    Shaped(iban) && Number(Reordered(iban)) % 97 == 1
  }

  /** The streaming remainder is the remainder of the whole number; a foreign character stops it. */
  method Remainder(s: string) returns (ok: bool, r: int)
    ensures ok <==> Spelled(s)
    ensures ok ==> r == Number(s) % 97
  {
    hide Number;
    EmptySpellsZero();
    ok, r := true, 0;
    for i := 0 to |s|
      invariant Spelled(s[..i]) && r == Number(s[..i]) % 97
    {
      assert s[..i + 1] == s[..i] + [s[i]];
      NumberSnoc(s[..i], s[i]);
      StreamStep(Number(s[..i]), Value(s[i]));
      if Digit(s[i]) {
        r := (r * 10 + Value(s[i])) % 97;
      } else if Capital(s[i]) {
        r := (r * 100 + Value(s[i])) % 97;
      } else {
        return false, r;
      }
    }
    assert s[..|s|] == s;
  }

  lemma StreamStep(n: int, v: int)
    ensures (n % 97 * 10 + v) % 97 == (n * 10 + v) % 97
    ensures (n % 97 * 100 + v) % 97 == (n * 100 + v) % 97
  {
    var q := n / 97;
    assert n == q * 97 + n % 97;
    SameRemainder(n % 97 * 10 + v, n * 10 + v, q * 10);
    SameRemainder(n % 97 * 100 + v, n * 100 + v, q * 100);
  }

  lemma SameRemainder(a: int, b: int, q: int)
    requires b == a + q * 97
    ensures a % 97 == b % 97
  {
  }

  // ----- arithmetic modulo 97

  /** Ten has an inverse modulo 97 (68), so powers of ten can be cancelled. */
  lemma {:induction false} CancelPowers(d: int, k: nat)
    ensures (d * Pow10(k)) % 97 == 0 <==> d % 97 == 0
  {
    if k > 0 {
      CancelPowers(d, k - 1);
      CancelTen(d * Pow10(k - 1));
      assert d * Pow10(k) == d * Pow10(k - 1) * 10;
    }
  }

  lemma CancelTen(d: int)
    ensures (d * 10) % 97 == 0 <==> d % 97 == 0
  {
    var q := d * 10 / 97;
    if (d * 10) % 97 == 0 {
      SameRemainder(0, d, 68 * q - 7 * d);
    }
  }

  lemma RemaindersAgree(a: int, b: int)
    ensures a % 97 == b % 97 <==> (a - b) % 97 == 0
  {
    var q, p := a / 97, b / 97;
    assert a == q * 97 + a % 97 && b == p * 97 + b % 97;
    SameRemainder(a % 97 - b % 97, a - b, q - p);
  }

  /** Replacing a stretch by one of the same written length is noticed unless the two agree modulo 97. */
  lemma Replaced(a: string, x: string, y: string, b: string)
    requires Weight(x) == Weight(y)
    ensures Number(a + x + b) % 97 == Number(a + y + b) % 97 <==> (Number(x) - Number(y)) % 97 == 0
  {
    hide Number, Weight;
    NumberAppend(a + x, b);
    NumberAppend(a + y, b);
    NumberAppend(a, x);
    NumberAppend(a, y);
    var w, d := Weight(b), Number(x) - Number(y);
    assert Number(a + x + b) - Number(a + y + b) == d * w by {
      Factor(Number(a) * Weight(x), Number(x), Number(y), w);
    }
    RemaindersAgree(Number(a + x + b), Number(a + y + b));
    assert w == Pow10(|Expansion(b)|) by { WeightIsPower(b); }
    CancelPowers(d, |Expansion(b)|);
  }

  lemma WeightIsPower(s: string)
    ensures Weight(s) == Pow10(|Expansion(s)|)
  {
  }

  lemma Factor(m: int, x: int, y: int, w: int)
    ensures (m + x) * w - (m + y) * w == (x - y) * w
  {
  }

  // ----- one and two characters

  lemma OneCharacter(c: char)
    ensures Number([c]) == Value(c)
    ensures Weight([c]) == if Digit(c) then 10 else 100
  {
    hide Number, Weight;
    EmptySpellsZero();
    NumberSnoc("", c);
    WeightSnoc("", c);
    assert "" + [c] == [c];
  }

  lemma TwoCharacters(c: char, d: char)
    ensures Number([c, d]) == if Digit(d) then Value(c) * 10 + Value(d) else Value(c) * 100 + Value(d)
    ensures Weight([c, d]) == if Digit(d) then Weight([c]) * 10 else Weight([c]) * 100
  {
    hide Number, Weight;
    OneCharacter(c);
    NumberSnoc([c], d);
    WeightSnoc([c], d);
    assert [c] + [d] == [c, d];
  }

  // ----- single substitutions

  /** The string around position i of an IBAN, in the order the check reads it. */
  lemma Around(iban: string, i: nat, c: char) returns (a: string, b: string)
    requires |iban| >= 4 && i < |iban|
    ensures Reordered(iban) == a + [iban[i]] + b
    ensures Reordered(iban[i := c]) == a + [c] + b
  {
    if i >= 4 {
      a, b := iban[4..i], iban[i + 1..] + iban[..4];
    } else {
      a, b := iban[4..] + iban[..i], iban[i + 1..4];
    }
  }

  /** No accepted IBAN becomes another by mistyping one digit or one letter. */
  lemma SubstitutionIsCaught(iban: string, i: nat, c: char)
    requires ValidIban(iban) && i < |iban| && c != iban[i]
    requires (Digit(c) && Digit(iban[i])) || (Capital(c) && Capital(iban[i]))
    ensures !ValidIban(iban[i := c])
  {
    hide Number, Weight;
    var a, b := Around(iban, i, c);
    OneCharacter(c);
    OneCharacter(iban[i]);
    Replaced(a, [iban[i]], [c], b);
  }

  // ----- adjacent transpositions

  function Swapped(iban: string, i: nat): string
    requires i + 1 < |iban|
  {
    iban[i := iban[i + 1]][i + 1 := iban[i]]
  }

  /** A digit next to the letter worth eleven times as much: 1B, 2M, 3X and their reverses. */
  predicate Blind(c: char, d: char) {
    || (Digit(c) && Capital(d) && Value(d) == 11 * Value(c))
    || (Capital(c) && Digit(d) && Value(c) == 11 * Value(d))
  }

  lemma AroundPair(iban: string, i: nat) returns (a: string, b: string)
    requires |iban| >= 5 && i + 1 < |iban| && i != 3
    ensures Reordered(iban) == a + [iban[i], iban[i + 1]] + b
    ensures Reordered(Swapped(iban, i)) == a + [iban[i + 1], iban[i]] + b
  {
    if i >= 4 {
      a, b := iban[4..i], iban[i + 2..] + iban[..4];
    } else {
      a, b := iban[4..] + iban[..i], iban[i + 2..4];
    }
  }

  /** What the two orders of a pair differ by: 9, 99 or a mixture, never lost modulo 97 unless blind. */
  lemma SmallGap(n: int)
    requires -96 <= n <= 96
    ensures n % 97 == 0 <==> n == 0
  {
  }

  lemma MixedGap(n: int)
    requires -35 <= n <= 89
    ensures (9 * n) % 97 == 0 <==> n == 0
  {
    var q := 9 * n / 97;
    if (9 * n) % 97 == 0 {
      assert 9 * n == 97 * q && -4 <= q <= 8;
    }
  }

  lemma LetterGap(n: int)
    requires -25 <= n <= 25
    ensures (99 * n) % 97 == 0 <==> n == 0
  {
    SameRemainder(2 * n, 99 * n, n);
    SmallGap(2 * n);
  }

  lemma PairOrders(c: char, d: char)
    requires (Digit(c) || Capital(c)) && (Digit(d) || Capital(d)) && c != d
    ensures Weight([c, d]) == Weight([d, c])
    ensures (Number([c, d]) - Number([d, c])) % 97 == 0 <==> Blind(c, d)
  {
    hide Number, Weight;
    OneCharacter(c);
    OneCharacter(d);
    TwoCharacters(c, d);
    TwoCharacters(d, c);
    var x, y := Value(c), Value(d);
    var gap := Number([c, d]) - Number([d, c]);
    if Digit(c) && Digit(d) {
      assert gap == 9 * (x - y);
      SmallGap(gap);
    } else if Capital(c) && Capital(d) {
      assert gap == 99 * (x - y);
      LetterGap(x - y);
    } else if Digit(c) {
      assert gap == 9 * (11 * x - y);
      MixedGap(11 * x - y);
    } else {
      assert -gap == 9 * (11 * y - x);
      MixedGap(11 * y - x);
      Negated(gap);
    }
  }

  lemma Negated(n: int)
    ensures n % 97 == 0 <==> (-n) % 97 == 0
  {
  }

  /** The pair that the rearrangement pulls apart: last check digit and first account character. */
  lemma AroundStraddle(iban: string) returns (middle: string)
    requires |iban| >= 5
    ensures Reordered(iban) == [iban[4]] + middle + [iban[3]]
    ensures Reordered(Swapped(iban, 3)) == [iban[3]] + middle + [iban[4]]
    ensures |middle| == |iban| - 2
  {
    middle := iban[5..] + iban[..3];
  }

  /** Starting from remainder r, none of the next n powers of ten leaves remainder 1. */
  predicate NeverOne(r: int, n: nat)
    decreases n
  {
    n == 0 || (r * 10 % 97 != 1 && NeverOne(r * 10 % 97, n - 1))
  }

  lemma {:induction false} NeverOneSoon(j: nat, n: nat, k: nat)
    requires NeverOne(Pow10(j) % 97, n) && 1 <= k <= n
    ensures Pow10(j + k) % 97 != 1
    decreases k
  {
    StreamStep(Pow10(j), 0);
    if k > 1 {
      NeverOneSoon(j + 1, n - 1, k - 1);
    }
  }

  lemma FiveMore(r: int, n: nat)
    requires n >= 5 && NeverOne(r * 90 % 97, n - 5)
    requires r * 10 % 97 != 1 && r * 3 % 97 != 1 && r * 30 % 97 != 1 && r * 9 % 97 != 1 && r * 90 % 97 != 1
    ensures NeverOne(r, n)
  {
    TenMore(r, r * 10, 0);
    TenMore(r * 10, r * 3, r);
    TenMore(r * 3, r * 30, 0);
    TenMore(r * 30, r * 9, 3 * r);
    TenMore(r * 9, r * 90, 0);
    assert NeverOne(r * 9 % 97, n - 4);
    assert NeverOne(r * 30 % 97, n - 3);
    assert NeverOne(r * 3 % 97, n - 2);
  }

  lemma TenMore(a: int, b: int, q: int)
    requires a * 10 == b + q * 97
    ensures a % 97 * 10 % 97 == b % 97
  {
    StreamStep(a, 0);
    SameRemainder(b, a * 10, q);
  }

  lemma NeverOneAtOnce(r: int)
    ensures NeverOne(r, 0)
  {
  }

  /** The first 65 powers of ten after 1 differ from 1 modulo 97. */
  lemma NeverOneFromStart()
    ensures NeverOne(1, 65)
  {
    hide NeverOne;
    NeverOneAtOnce(59);
    FiveMore(47, 5);
    FiveMore(21, 10);
    FiveMore(94, 15);
    FiveMore(42, 20);
    FiveMore(91, 25);
    FiveMore(84, 30);
    FiveMore(85, 35);
    FiveMore(71, 40);
    FiveMore(73, 45);
    FiveMore(45, 50);
    FiveMore(49, 55);
    FiveMore(90, 60);
    FiveMore(1, 65);
  }

  lemma {:induction false} ExpansionLength(s: string)
    ensures |Expansion(s)| <= 2 * |s|
  {
    if s != "" {
      ExpansionLength(s[..|s| - 1]);
    }
  }

  lemma SmallProduct(m: int, n: int)
    requires 1 <= m <= 9 && -1 <= n <= 95 && n != 0
    ensures (m * n) % 97 != 0
  {
    if m == 1 {} else if m == 2 {} else if m == 3 {} else if m == 4 {} else if m == 5 {}
    else if m == 6 {} else if m == 7 {} else if m == 8 {} else {}
  }

  lemma StraddleIsCaught(c: char, middle: string, d: char)
    requires Digit(c) && Digit(d) && c != d && |middle| <= 32
    ensures Number([c] + middle + [d]) % 97 != Number([d] + middle + [c]) % 97
  {
    hide Number, Weight, Pow10, Expansion;
    NumberSnoc([c] + middle, d);
    NumberSnoc([d] + middle, c);
    NumberAppend([c], middle);
    NumberAppend([d], middle);
    OneCharacter(c);
    OneCharacter(d);
    var w := Weight(middle) * 10;
    var x, y := Value(c), Value(d);
    assert Number([c] + middle + [d]) - Number([d] + middle + [c]) == (x - y) * (w - 1) by {
      Spread(x, y, Weight(middle), Number(middle));
    }
    PowerNotOne(middle);
    NotDivisible(x - y, w);
    RemaindersAgree(Number([c] + middle + [d]), Number([d] + middle + [c]));
  }

  lemma Spread(x: int, y: int, w: int, n: int)
    ensures ((x * w + n) * 10 + y) - ((y * w + n) * 10 + x) == (x - y) * (w * 10 - 1)
  {
  }

  lemma PowerNotOne(middle: string)
    requires |middle| <= 32
    ensures Weight(middle) * 10 % 97 != 1
  {
    hide NeverOne, Expansion;
    var k := |Expansion(middle)|;
    ExpansionLength(middle);
    NeverOneFromStart();
    NeverOneSoon(0, 65, k + 1);
  }

  lemma Multiplied(m: int, n: int, q: int)
    ensures m * (n + q * 97) == m * n + m * q * 97
  {
  }

  lemma NotDivisible(m: int, w: int)
    requires -9 <= m <= 9 && m != 0 && w % 97 != 1
    ensures (m * (w - 1)) % 97 != 0
  {
    var n, q := w % 97 - 1, w / 97;
    assert (m * (w - 1)) % 97 == (m * n) % 97 by {
      Multiplied(m, n, q);
      assert w - 1 == n + q * 97;
      SameRemainder(m * n, m * (w - 1), m * q);
    }
    if m > 0 {
      SmallProduct(m, n);
    } else {
      SmallProduct(-m, n);
      NegatedProduct(m, n);
    }
  }

  lemma NegatedProduct(m: int, n: int)
    ensures (-m * n) % 97 == 0 <==> (m * n) % 97 == 0
  {
    assert -m * n == -(m * n);
    Negated(m * n);
  }

  /**
   Swapping two unequal neighbours of an accepted IBAN goes unnoticed exactly when a digit and the
   letter worth eleven times as much change places behind the check digits.
   */
  lemma TranspositionIsCaught(iban: string, i: nat)
    requires ValidIban(iban) && i + 1 < |iban| && iban[i] != iban[i + 1]
    ensures ValidIban(Swapped(iban, i)) <==> i >= 4 && Blind(iban[i], iban[i + 1])
  {
    hide Number, Weight;
    if i == 3 {
      if Digit(iban[4]) {
        var middle := AroundStraddle(iban);
        StraddleIsCaught(iban[4], middle, iban[3]);
      }
    } else {
      var a, b := AroundPair(iban, i);
      PairOrders(iban[i], iban[i + 1]);
      Replaced(a, [iban[i], iban[i + 1]], [iban[i + 1], iban[i]], b);
    }
  }

  lemma NineZeros(s: string)
    ensures Number(s + "000000000") == Number(s) * 1_000_000_000
  {
    hide Number;
    NumberSnoc(s, '0');
    NumberSnoc(s + "0", '0');
    NumberSnoc(s + "00", '0');
    assert s + "0" + "0" == s + "00" && s + "00" + "0" == s + "000";
    var t := s + "000";
    NumberSnoc(t, '0');
    NumberSnoc(t + "0", '0');
    NumberSnoc(t + "00", '0');
    assert t + "0" + "0" == t + "00" && t + "00" + "0" == s + "000000";
    var u := s + "000000";
    NumberSnoc(u, '0');
    NumberSnoc(u + "0", '0');
    NumberSnoc(u + "00", '0');
    assert u + "0" + "0" == u + "00" && u + "00" + "0" == s + "000000000";
  }

  /** Such IBANs are accepted, in either order. */
  lemma BlindPairExists() returns (iban: string, i: nat)
    ensures ValidIban(iban) && i + 1 < |iban| && iban[i] != iban[i + 1] && ValidIban(Swapped(iban, i))
  {
    hide Number;
    iban, i := "TR961B000000000", 4;
    EmptySpellsZero();
    NumberSnoc("", '1');
    NumberSnoc("1", 'B');
    assert "" + "1" == "1" && "1" + "B" == "1B";
    NineZeros("1B");
    var s := "1B" + "000000000";
    NumberSnoc(s, 'T');
    NumberSnoc(s + "T", 'R');
    NumberSnoc(s + "T" + "R", '9');
    NumberSnoc(s + "T" + "R" + "9", '6');
    assert Reordered(iban) == s + "T" + "R" + "9" + "6";
    assert Number(Reordered(iban)) == 111_000_000_000_292_796;
    TranspositionIsCaught(iban, i);
  }

  // ----- normalisation

  /** The typed text without white space, in upper case. */
  ghost function Squeezed(u: Unicode, s: string): string {
    if s == "" then ""
    else
      var c := u.upper(s[|s| - 1]);
      Squeezed(u, s[..|s| - 1]) + if u.isSpace(c) then "" else [c]
  }

  ghost predicate Alphanumeric(u: Unicode, s: string) {
    forall i :: 0 <= i < |s| ==> u.isLetter(s[i]) || u.isDigit(s[i])
  }

  lemma {:induction false} SqueezedAppend(u: Unicode, x: string, y: string)
    ensures Squeezed(u, x + y) == Squeezed(u, x) + Squeezed(u, y)
  {
    if y == "" {
      assert x + y == x;
    } else {
      var n := |y| - 1;
      SqueezedAppend(u, x, y[..n]);
      assert (x + y)[..|x| + n] == x + y[..n];
    }
  }

  lemma SqueezedSpace(u: Unicode, c: char)
    requires Faithful(u) && u.isSpace(c)
    ensures Squeezed(u, [c]) == ""
  {
    assert [c][..0] == "";
  }

  /** White space anywhere makes no difference to what is left of the text. */
  lemma WhiteSpaceIsIgnored(u: Unicode, x: string, c: char, y: string)
    requires Faithful(u) && u.isSpace(c)
    ensures Squeezed(u, x + [c] + y) == Squeezed(u, x + y)
  {
    hide Squeezed;
    SqueezedAppend(u, x + [c], y);
    SqueezedAppend(u, x, [c]);
    SqueezedAppend(u, x, y);
    SqueezedSpace(u, c);
    assert Squeezed(u, x) + "" == Squeezed(u, x);
  }

  lemma {:induction false} TrimLeftIsIgnored(u: Unicode, s: string)
    requires Faithful(u)
    ensures Squeezed(u, TrimLeft(u, s)) == Squeezed(u, s)
  {
    if s != "" && u.isSpace(s[0]) {
      TrimLeftIsIgnored(u, s[1..]);
      WhiteSpaceIsIgnored(u, "", s[0], s[1..]);
      assert s == "" + [s[0]] + s[1..] && "" + s[1..] == s[1..];
    }
  }

  lemma {:induction false} TrimRightIsIgnored(u: Unicode, s: string)
    requires Faithful(u)
    ensures Squeezed(u, TrimRight(u, s)) == Squeezed(u, s)
  {
    if s != "" && u.isSpace(s[|s| - 1]) {
      var n := |s| - 1;
      TrimRightIsIgnored(u, s[..n]);
      WhiteSpaceIsIgnored(u, s[..n], s[n], "");
      assert s == s[..n] + [s[n]] + "" && s[..n] + "" == s[..n];
    }
  }

  /** A spelled string is already squeezed. */
  lemma {:induction false} SpelledIsSqueezed(u: Unicode, s: string)
    requires Faithful(u) && Spelled(s)
    ensures Squeezed(u, s) == s
  {
    if s != "" {
      SpelledIsSqueezed(u, s[..|s| - 1]);
    }
  }

  datatype Normalized = Accepted(iban: string) | Rejected

  /** The text is blank, or spells an IBAN once white space and case are put aside. */
  ghost predicate Acceptable(u: Unicode, value: string) {
    Squeezed(u, value) == "" || ValidIban(Squeezed(u, value))
  }

  method NormalizeIban(u: Unicode, value: string) returns (r: Normalized)
    requires Faithful(u)
    ensures r.Accepted? <==> Acceptable(u, value)
    ensures r.Accepted? ==> r.iban == Squeezed(u, value)
  {
    hide Squeezed, Number;
    var text := TrimRight(u, TrimLeft(u, value));
    TrimLeftIsIgnored(u, value);
    TrimRightIsIgnored(u, TrimLeft(u, value));
    var iban := "";
    NothingSqueezed(u);
    for i := 0 to |text|
      invariant iban == Squeezed(u, text[..i])
      invariant Alphanumeric(u, iban)
    {
      var c := u.upper(text[i]);
      SqueezedMore(u, text, i);
      if u.isSpace(c) {
        continue;
      }
      if !u.isLetter(c) && !u.isDigit(c) {
        StrangerStays(u, text, i);
        return Rejected;
      }
      iban := iban + [c];
    }
    assert text[..|text|] == text;
    if iban == "" {
      return Accepted("");
    }
    if |iban| < 15 || |iban| > 34 || !Capital(iban[0]) || !Capital(iban[1]) || !Digit(iban[2]) || !Digit(iban[3]) {
      return Rejected;
    }
    var spelled, remainder := Remainder(Reordered(iban));
    ReorderedIsSpelled(iban);
    return if spelled && remainder == 1 then Accepted(iban) else Rejected;
  }

  lemma ReorderedIsSpelled(iban: string)
    requires |iban| >= 4
    ensures Spelled(Reordered(iban)) <==> Spelled(iban)
  {
    if Spelled(Reordered(iban)) {
      forall i | 0 <= i < |iban| ensures Digit(iban[i]) || Capital(iban[i]) {
        assert iban[i] == Reordered(iban)[if i >= 4 then i - 4 else |iban| - 4 + i];
      }
    }
  }

  lemma NothingSqueezed(u: Unicode)
    ensures Squeezed(u, "") == ""
  {
  }

  lemma SqueezedMore(u: Unicode, text: string, i: nat)
    requires i < |text|
    ensures var c := u.upper(text[i]);
            Squeezed(u, text[..i + 1]) == Squeezed(u, text[..i]) + if u.isSpace(c) then "" else [c]
    ensures u.isSpace(u.upper(text[i])) ==> Squeezed(u, text[..i + 1]) == Squeezed(u, text[..i])
  {
    assert text[..i + 1][..i] == text[..i];
  }

  /** A character that is neither letter nor digit spoils the text. */
  lemma StrangerStays(u: Unicode, text: string, i: nat)
    requires Faithful(u) && i < |text|
    requires var c := u.upper(text[i]); !u.isSpace(c) && !u.isLetter(c) && !u.isDigit(c)
    ensures !Acceptable(u, text)
  {
    hide Squeezed, Number;
    SqueezedMore(u, text, i);
    assert text == text[..i + 1] + text[i + 1..];
    SqueezedAppend(u, text[..i + 1], text[i + 1..]);
    var k, all := |Squeezed(u, text[..i])|, Squeezed(u, text);
    assert all[k] == u.upper(text[i]);
  }

  /** Normalising what was accepted changes nothing. */
  method NormalizeTwice(u: Unicode, value: string) returns (first: Normalized, second: Normalized)
    requires Faithful(u)
    ensures first.Accepted? ==> second == first
  {
    hide Squeezed, ValidIban;
    first := NormalizeIban(u, value);
    if first.Rejected? {
      return first, first;
    }
    AcceptedIsSpelled(first.iban);
    SpelledIsSqueezed(u, first.iban);
    second := NormalizeIban(u, first.iban);
  }

  lemma AcceptedIsSpelled(iban: string)
    requires iban == "" || ValidIban(iban)
    ensures Spelled(iban)
  {
  }
}
