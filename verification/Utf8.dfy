/**
 UTF-8 over byte strings, as unicode/utf8 decodes it, and what encoding/json makes of a string:
 every byte that starts no character is written as U+FFFD.
 */
module Utf8 {

  const REPLACEMENT := "\U{EF}\U{BF}\U{BD}"

  predicate Within(s: string, i: nat, low: int, high: int) {
    i < |s| && low <= s[i] as int <= high
  }

  /** The length of the character the string starts with, 0 when it starts with none. */
  function Width(s: string): (n: nat)
    ensures n <= 4 && n <= |s|
  {
    if Within(s, 0, 0, 0x7F) then 1
    else if Within(s, 0, 0xC2, 0xDF) then (if Within(s, 1, 0x80, 0xBF) then 2 else 0)
    else if Within(s, 0, 0xE0, 0xEF) then
      var low, high := if s[0] as int == 0xE0 then 0xA0 else 0x80, if s[0] as int == 0xED then 0x9F else 0xBF;
      if Within(s, 1, low, high) && Within(s, 2, 0x80, 0xBF) then 3 else 0
    else if Within(s, 0, 0xF0, 0xF4) then
      var low, high := if s[0] as int == 0xF0 then 0x90 else 0x80, if s[0] as int == 0xF4 then 0x8F else 0xBF;
      if Within(s, 1, low, high) && Within(s, 2, 0x80, 0xBF) && Within(s, 3, 0x80, 0xBF) then 4 else 0
    else 0
  }

  predicate Valid(s: string) {
    s == "" || (Width(s) > 0 && Valid(s[Width(s)..]))
  }

  /** A string after a trip through JSON. */
  function Replaced(s: string): string {
    if s == "" then ""
    else if Width(s) == 0 then REPLACEMENT + Replaced(s[1..])
    else s[..Width(s)] + Replaced(s[Width(s)..])
  }

  /** A character is recognised by its own bytes, whatever follows. */
  lemma WidthOfFront(s: string, tail: string)
    requires Width(s) > 0
    ensures Width(s[..Width(s)] + tail) == Width(s)
  {
  }

  // ----- characters

  /** How many bytes a character takes. */
  function Size(c: char): (n: nat)
    ensures n >= 1
  {
    if c as int < 0x80 then 1 else if c as int < 0x800 then 2 else if c as int < 0x10000 then 3 else 4
  }

  /** The UTF-8 form of a character in as many bytes as counted: the first byte, then six bits each. */
  ghost function Encoded(c: char): string {
    var n := c as int;
    match Size(c)
    case 1 => [c]
    case 2 => [Byte(0xC0 + n / 64), Byte(0x80 + n % 64)]
    case 3 => [Byte(0xE0 + n / 64 / 64), Byte(0x80 + n / 64 % 64), Byte(0x80 + n % 64)]
    case _ => [Byte(0xF0 + n / 64 / 64 / 64), Byte(0x80 + n / 64 / 64 % 64), Byte(0x80 + n / 64 % 64),
               Byte(0x80 + n % 64)]
  }

  ghost function Byte(n: int): (c: char)
    ensures 0 <= n < 0x100 ==> c as int == n
  {
    if 0 <= n < 0x100 then n as char else ' '
  }

  /** What a first byte, less the mark of its length, and the bytes after it spell. */
  ghost function Spelt(first: int, s: string): int {
    if s == "" then first else Spelt(first, s[..|s| - 1]) * 64 + (s[|s| - 1] as int - 0x80)
  }

  lemma SixBits(n: int, m: int)
    requires 0 <= n < 64 * m
    ensures 0 <= n / 64 < m && 0 <= n % 64 < 64 && n == n / 64 * 64 + n % 64
  {
  }

  lemma SpeltOne(first: int, b: char)
    ensures Spelt(first, [b]) == first * 64 + (b as int - 0x80)
  {
    assert [b][..0] == "" && Spelt(first, "") == first;
  }

  lemma SpeltTwo(first: int, a: char, b: char)
    ensures Spelt(first, [a, b]) == (first * 64 + (a as int - 0x80)) * 64 + (b as int - 0x80)
  {
    SpeltOne(first, a);
    assert [a, b][..1] == [a];
  }

  lemma SpeltThree(first: int, a: char, b: char, c: char)
    ensures Spelt(first, [a, b, c])
            == ((first * 64 + (a as int - 0x80)) * 64 + (b as int - 0x80)) * 64 + (c as int - 0x80)
  {
    SpeltTwo(first, a, b);
    assert [a, b, c][..2] == [a, b];
  }

  /** The mark a first byte carries. */
  const MARKS: seq<int> := [0, 0xC0, 0xE0, 0xF0]

  /** The count is right: so many bytes are one well-formed character, and they spell c. */
  lemma SizeIsWidth(c: char)
    ensures 1 <= Size(c) <= 4 && |Encoded(c)| == Size(c) == Width(Encoded(c))
    ensures Spelt(Encoded(c)[0] as int - MARKS[Size(c) - 1], Encoded(c)[1..]) == c as int
  {
    hide Spelt;
    var n, e := c as int, Encoded(c);
    if Size(c) == 1 {
      assert e[1..] == "" && Spelt(n, "") == n by { SpeltNothing(n); }
    } else if Size(c) == 2 {
      SixBits(n, 0x20);
      assert e[1..] == [e[1]];
      SpeltOne(n / 64, e[1]);
    } else if Size(c) == 3 {
      SixBits(n, 0x400);
      SixBits(n / 64, 0x10);
      assert e[1..] == [e[1], e[2]];
      SpeltTwo(n / 64 / 64, e[1], e[2]);
    } else {
      SixBits(n, 0x4400);
      SixBits(n / 64, 0x110);
      SixBits(n / 64 / 64, 5);
      assert e[1..] == [e[1], e[2], e[3]];
      SpeltThree(n / 64 / 64 / 64, e[1], e[2], e[3]);
    }
  }

  lemma SpeltNothing(first: int)
    ensures Spelt(first, "") == first
  {
  }

  lemma SixBitsBack(high: int, low: int)
    requires 0 <= low < 64
    ensures (high * 64 + low) / 64 == high && (high * 64 + low) % 64 == low
  {
  }

  lemma OfTwo(s: string) returns (c: char)
    requires Width(s) == 2
    ensures Encoded(c) == s[..2] && Size(c) == 2
  {
    var a, b := s[0] as int - 0xC0, s[1] as int - 0x80;
    SixBitsBack(a, b);
    c := (a * 64 + b) as char;
    assert s[..2] == [s[0], s[1]];
  }

  lemma OfThree(s: string) returns (c: char)
    requires Width(s) == 3
    ensures Encoded(c) == s[..3] && Size(c) == 3
  {
    var a, b, d := s[0] as int - 0xE0, s[1] as int - 0x80, s[2] as int - 0x80;
    SixBitsBack(a, b);
    SixBitsBack(a * 64 + b, d);
    c := ((a * 64 + b) * 64 + d) as char;
    assert s[..3] == [s[0], s[1], s[2]];
  }

  lemma OfFour(s: string) returns (c: char)
    requires Width(s) == 4
    ensures Encoded(c) == s[..4] && Size(c) == 4
  {
    var a, b, d, e := s[0] as int - 0xF0, s[1] as int - 0x80, s[2] as int - 0x80, s[3] as int - 0x80;
    SixBitsBack(a, b);
    SixBitsBack(a * 64 + b, d);
    SixBitsBack((a * 64 + b) * 64 + d, e);
    c := (((a * 64 + b) * 64 + d) * 64 + e) as char;
    assert s[..4] == [s[0], s[1], s[2], s[3]];
  }

  /** The bytes recognised as a character are those of one. */
  lemma WidthIsSize(s: string) returns (c: char)
    requires Width(s) > 0
    ensures Encoded(c) == s[..Width(s)] && Size(c) == Width(s)
  {
    if Width(s) == 1 {
      c := s[0];
    } else {
      hide Encoded;
      if Width(s) == 2 {
        c := OfTwo(s);
      } else if Width(s) == 3 {
        c := OfThree(s);
      } else {
        c := OfFour(s);
      }
    }
  }

  /** A string starts with a character exactly when it starts with the bytes of one. */
  lemma WidthIsExact(s: string)
    ensures Width(s) > 0 <==> exists c: char :: Encoded(c) <= s
  {
    hide Encoded;
    if Width(s) > 0 {
      var c := WidthIsSize(s);
      assert Encoded(c) <= s;
    }
    forall c: char | Encoded(c) <= s ensures Width(s) > 0 {
      SizeIsWidth(c);
      WidthOfFront(Encoded(c), s[Size(c)..]);
      assert Encoded(c)[..Size(c)] + s[Size(c)..] == s;
    }
  }

  // ----- JSON

  lemma {:induction false} ReplacedIsValid(s: string)
    ensures Valid(Replaced(s))
  {
    if s != "" {
      var n := Width(s);
      if n == 0 {
        ReplacedIsValid(s[1..]);
        var tail := Replaced(s[1..]);
        assert Width(REPLACEMENT + tail) == 3 && (REPLACEMENT + tail)[3..] == tail;
      } else {
        ReplacedIsValid(s[n..]);
        var tail := Replaced(s[n..]);
        WidthOfFront(s, tail);
        assert (s[..n] + tail)[n..] == tail;
      }
    }
  }

  /** A string survives the trip exactly when it is valid; otherwise it grows. */
  lemma {:induction false} SurvivesIfValid(s: string)
    ensures Valid(s) ==> Replaced(s) == s
    ensures !Valid(s) ==> |Replaced(s)| > |s|
  {
    if s != "" {
      var n := Width(s);
      SurvivesIfValid(if n == 0 then s[1..] else s[n..]);
      if n > 0 {
        assert s == s[..n] + s[n..];
      }
    }
  }

  lemma {:induction false} AsciiIsValid(s: string)
    requires forall i :: 0 <= i < |s| ==> s[i] as int < 0x80
    ensures Valid(s)
  {
    if s != "" {
      assert Width(s) == 1;
      AsciiIsValid(s[1..]);
    }
  }
}
