/**
 The names a restore gives to databases (internal/backup/candidate.go:295-314) and the
 parser that recognises a retired one (internal/backup/retention.go:95-104).  A name is a
 sequence of bytes; a stamp is the text time.Format renders for the layout
 "20060102T150405Z", taken as an input.
 */
module DatabaseNames {

  import opened Text
  import opened Wrappers

  const NAME_LIMIT := 63
  const STAMP_LENGTH := 16
  const CANDIDATE_INFIX := "_cand_"
  const RETIRED_INFIX := "_old_"

  // ----- stamps

  function DaysIn(year: int, month: int): int {
    if month == 2 then (if year % 4 == 0 && (year % 100 != 0 || year % 400 == 0) then 29 else 28)
    else if month in {4, 6, 9, 11} then 30 else 31
  }

  /** How many days precede this month, with years that begin in March and a leap day at their end. */
  ghost function DaysBefore(year: int, month: int): int {
    var y, m := if month <= 2 then year - 1 else year, (month + 9) % 12;
    DaysOfYears(y) + (153 * m + 2) / 5
  }

  ghost function DaysOfYears(y: int): int {
    365 * y + y / 4 - y / 100 + y / 400
  }

  lemma LeapYears(y: int)
    ensures DaysOfYears(y) - DaysOfYears(y - 1)
            == if y % 4 == 0 && (y % 100 != 0 || y % 400 == 0) then 366 else 365
  {
    Fourth(y);
    Hundredth(y);
    FourHundredth(y);
    Multiples(y);
  }

  lemma Fourth(y: int)
    ensures y / 4 - (y - 1) / 4 == if y % 4 == 0 then 1 else 0
  {
  }

  lemma Hundredth(y: int)
    ensures y / 100 - (y - 1) / 100 == if y % 100 == 0 then 1 else 0
  {
  }

  lemma FourHundredth(y: int)
    ensures y / 400 - (y - 1) / 400 == if y % 400 == 0 then 1 else 0
  {
  }

  lemma Multiples(y: int)
    ensures y % 400 == 0 ==> y % 100 == 0
    ensures y % 100 == 0 ==> y % 4 == 0
  {
    Divided(y / 400);
    Divided(y / 100);
    assert y % 400 == 0 ==> y == 400 * (y / 400);
    assert y % 100 == 0 ==> y == 100 * (y / 100);
  }

  lemma Divided(k: int)
    ensures 400 * k % 100 == 0 && 100 * k % 4 == 0
  {
  }

  /** Those are the lengths of the Gregorian months. */
  lemma DaysInIsGregorian(year: int, month: int)
    requires 1 <= month <= 12
    ensures DaysIn(year, month)
            == (if month == 12 then DaysBefore(year + 1, 1) else DaysBefore(year, month + 1)) - DaysBefore(year, month)
  {
    hide DaysOfYears;
    LeapYears(year);
  }

  /** Fourteen digits and a T that name a second of the calendar. */
  predicate IsMoment(s: string) {
    && |s| == 15 && s[8] == 'T' && AllDigits(s[..8]) && AllDigits(s[9..])
    && var year, month, day := NumberOf(s[..4]), NumberOf(s[4..6]), NumberOf(s[6..8]);
    && 1 <= month <= 12 && 1 <= day <= DaysIn(year, month)
    && NumberOf(s[9..11]) < 24 && NumberOf(s[11..13]) < 60 && NumberOf(s[13..15]) < 60
  }

  /** The number in exactly k digits. */
  ghost function Pad(n: nat, k: nat): (s: string)
    ensures |s| == k && AllDigits(s)
  {
    if k == 0 then "" else Pad(n / 10, k - 1) + [DigitOf(n % 10)]
  }

  ghost predicate Fits(n: nat, k: nat) {
    if k == 0 then n == 0 else Fits(n / 10, k - 1)
  }

  lemma {:induction false} PadReadsBack(n: nat, k: nat)
    requires Fits(n, k)
    ensures NumberOf(Pad(n, k)) == n
  {
    if k > 0 {
      PadReadsBack(n / 10, k - 1);
      assert Pad(n, k)[..k - 1] == Pad(n / 10, k - 1);
    }
  }

  lemma {:induction false} DigitsArePadded(s: string)
    requires AllDigits(s)
    ensures NumberOf(s) >= 0 && Pad(NumberOf(s), |s|) == s && Fits(NumberOf(s), |s|)
  {
    if s != "" {
      var front, d := s[..|s| - 1], s[|s| - 1] as int - '0' as int;
      DigitsArePadded(front);
      assert NumberOf(s) / 10 == NumberOf(front) && NumberOf(s) % 10 == d;
      assert s == front + [DigitOf(d)];
    }
  }

  lemma SmallFits(n: nat)
    ensures Fits(n, 2) <==> n < 100
    ensures Fits(n, 4) <==> n < 10000
  {
    assert Fits(n, 2) == Fits(n / 10, 1) == Fits(n / 10 / 10, 0);
    assert Fits(n, 4) == Fits(n / 10, 3) == Fits(n / 10 / 10, 2) == Fits(n / 10 / 10 / 10, 1)
        == Fits(n / 10 / 10 / 10 / 10, 0);
  }

  /** What time.Format renders before the zone. */
  ghost function Rendered(year: nat, month: nat, day: nat, hour: nat, minute: nat, second: nat): string {
    Pad(year, 4) + Pad(month, 2) + Pad(day, 2) + "T" + Pad(hour, 2) + Pad(minute, 2) + Pad(second, 2)
  }

  ghost predicate OnCalendar(year: nat, month: nat, day: nat, hour: nat, minute: nat, second: nat) {
    && year < 10000 && 1 <= month <= 12 && 1 <= day <= DaysIn(year, month)
    && hour < 24 && minute < 60 && second < 60
  }

  /** The moments are the renderings of the seconds of four-digit years, and each second has its own. */
  lemma MomentsAreRendered(s: string)
    ensures IsMoment(s) <==>
            exists y: nat, mo: nat, d: nat, h: nat, mi: nat, se: nat ::
              OnCalendar(y, mo, d, h, mi, se) && s == Rendered(y, mo, d, h, mi, se)
  {
    hide Pad, Fits, NumberOf, DaysIn;
    if IsMoment(s) {
      var y, mo, d, h, mi, se := Parts(s);
    }
    forall y: nat, mo: nat, d: nat, h: nat, mi: nat, se: nat
      | OnCalendar(y, mo, d, h, mi, se) && s == Rendered(y, mo, d, h, mi, se)
      ensures IsMoment(s)
    {
      RenderedIsMoment(y, mo, d, h, mi, se);
    }
  }

  lemma Parts(s: string) returns (y: nat, mo: nat, d: nat, h: nat, mi: nat, se: nat)
    requires IsMoment(s)
    ensures OnCalendar(y, mo, d, h, mi, se) && s == Rendered(y, mo, d, h, mi, se)
  {
    hide Pad, Fits, NumberOf, DaysIn;
    DigitsArePadded(s[..4]);
    DigitsArePadded(s[4..6]);
    DigitsArePadded(s[6..8]);
    DigitsArePadded(s[9..11]);
    DigitsArePadded(s[11..13]);
    DigitsArePadded(s[13..15]);
    y, mo, d := NumberOf(s[..4]), NumberOf(s[4..6]), NumberOf(s[6..8]);
    h, mi, se := NumberOf(s[9..11]), NumberOf(s[11..13]), NumberOf(s[13..15]);
    SmallFits(y);
    assert s == s[..4] + s[4..6] + s[6..8] + [s[8]] + s[9..11] + s[11..13] + s[13..15];
  }

  lemma RenderedIsMoment(y: nat, mo: nat, d: nat, h: nat, mi: nat, se: nat)
    requires OnCalendar(y, mo, d, h, mi, se)
    ensures IsMoment(Rendered(y, mo, d, h, mi, se))
  {
    hide Pad, Fits, NumberOf;
    var s := Rendered(y, mo, d, h, mi, se);
    SmallFits(y);
    SmallFits(mo);
    SmallFits(d);
    SmallFits(h);
    SmallFits(mi);
    SmallFits(se);
    PadReadsBack(y, 4);
    PadReadsBack(mo, 2);
    PadReadsBack(d, 2);
    PadReadsBack(h, 2);
    PadReadsBack(mi, 2);
    PadReadsBack(se, 2);
    assert s[..4] == Pad(y, 4) && s[4..6] == Pad(mo, 2) && s[6..8] == Pad(d, 2) && s[8] == 'T';
    assert s[9..11] == Pad(h, 2) && s[11..13] == Pad(mi, 2) && s[13..15] == Pad(se, 2);
    assert s[..8] == Pad(y, 4) + Pad(mo, 2) + Pad(d, 2) && s[9..] == Pad(h, 2) + Pad(mi, 2) + Pad(se, 2);
  }

  /** YYYYMMDDTHHMMSSZ */
  predicate IsStamp(s: string) {
    |s| == STAMP_LENGTH && s[15] == 'Z' && IsMoment(s[..15])
  }

  lemma SomeStamp()
    ensures IsStamp("20240101T000000Z") && IsMoment("20240101T000000")
  {
    var m := "20240101T000000";
    assert "20240101T000000Z"[..15] == m;
    MomentParts(m);
    SmallNumbers();
  }

  lemma MomentParts(m: string)
    requires m == "20240101T000000"
    ensures m[..4] == "2024" && m[4..6] == "01" && m[6..8] == "01"
    ensures m[9..11] == "00" && m[11..13] == "00" && m[13..15] == "00"
  {
    assert m[0] == '2' && m[1] == '0' && m[2] == '2' && m[3] == '4';
    assert m[4] == '0' && m[5] == '1' && m[6] == '0' && m[7] == '1';
    assert m[9] == '0' && m[10] == '0' && m[11] == '0' && m[12] == '0' && m[13] == '0' && m[14] == '0';
    assert m[9..11] == [m[9], m[10]] && m[11..13] == [m[11], m[12]] && m[13..15] == [m[13], m[14]];
    assert m[..4] == [m[0], m[1], m[2], m[3]] && m[4..6] == [m[4], m[5]] && m[6..8] == [m[6], m[7]];
  }

  lemma SmallNumbers()
    ensures NumberOf("2024") == 2024 && NumberOf("01") == 1 && NumberOf("00") == 0
  {
    assert "2"[..0] == "" && "20"[..1] == "2" && "202"[..2] == "20" && "2024"[..3] == "202";
    assert "0"[..0] == "" && "00"[..1] == "0" && "01"[..1] == "0";
    assert NumberOf("2") == 2;
    assert NumberOf("20") == 20;
    assert NumberOf("202") == 202;
    assert NumberOf("0") == 0;
  }

  /** truncateIdentifier: drops leading bytes, so the stamp survives. */
  function Truncate(name: string): (r: string)
    ensures |r| <= NAME_LIMIT
  {
    if |name| <= NAME_LIMIT then name else name[|name| - NAME_LIMIT..]
  }

  function CandidateName(live: string, stamp: string): (r: string)
    ensures |r| <= NAME_LIMIT
  {
    Truncate(live + CANDIDATE_INFIX + stamp)
  }

  function RetiredName(live: string, stamp: string): (r: string)
    ensures |r| <= NAME_LIMIT
  {
    Truncate(live + RETIRED_INFIX + stamp)
  }

  /**
   What time.Parse takes for the layout "20060102T150405Z": the stamp, or the stamp with a fraction
   of any length after the seconds.
   */
  predicate Accepted(text: string) {
    && |text| >= STAMP_LENGTH && text[|text| - 1] == 'Z' && IsMoment(text[..15])
    && (|text| == STAMP_LENGTH
        || (|text| > STAMP_LENGTH + 1 && (text[15] == '.' || text[15] == ',') && AllDigits(text[16..|text| - 1])))
  }

  /** A fraction of a second, if there is one: a dot or a comma and digits. */
  ghost predicate IsFraction(f: string) {
    f == "" || (|f| >= 2 && f[0] in ".," && AllDigits(f[1..]))
  }

  /** The texts taken are a moment, a fraction perhaps, and the zone. */
  lemma AcceptedMeans(text: string)
    ensures Accepted(text) <==> exists m, f :: IsMoment(m) && IsFraction(f) && text == m + f + "Z"
  {
    hide AllDigits;
    if Accepted(text) {
      var m, f := text[..15], text[15..|text| - 1];
      assert f != "" ==> f[1..] == text[16..|text| - 1];
      assert IsMoment(m) && IsFraction(f) && text == m + f + "Z";
    }
    forall m, f | IsMoment(m) && IsFraction(f) && text == m + f + "Z" ensures Accepted(text) {
      MomentLength(m);
      assert text[..15] == m && text[15..|text| - 1] == f;
      assert f != "" ==> f[1..] == text[16..|text| - 1];
    }
  }

  lemma MomentLength(m: string)
    requires IsMoment(m)
    ensures |m| == 15
  {
  }

  /** parseRetiredStamp for the prefix live + "_old_". */
  function ParseRetiredStamp(name: string, live: string): Option<string> {
    var prefix := live + RETIRED_INFIX;
    if prefix <= name && Accepted(name[|prefix|..]) then Some(name[|prefix|..]) else None
  }

  /** A name retiredName gives, for the stamp it ends with. */
  predicate IsRetired(live: string, name: string) {
    && |name| >= STAMP_LENGTH && IsStamp(name[|name| - STAMP_LENGTH..])
    && name == RetiredName(live, name[|name| - STAMP_LENGTH..])
  }

  lemma RetiredNamesAreRetired(live: string, stamp: string)
    requires IsStamp(stamp)
    ensures IsRetired(live, RetiredName(live, stamp))
  {
    hide IsMoment;
    RetiredTail(live, stamp);
    var r := RetiredName(live, stamp);
    assert r[|r| - STAMP_LENGTH..] == r[|r| - 21..][5..] == stamp;
  }

  /** What a name ends with is not touched by truncation. */
  lemma TruncateKeepsTail(head: string, tail: string)
    requires |tail| <= NAME_LIMIT
    ensures |Truncate(head + tail)| >= |tail|
    ensures Truncate(head + tail)[|Truncate(head + tail)| - |tail|..] == tail
  {
    var name := head + tail;
    var r := Truncate(name);
    var d := |name| - |r|;
    assert r == name[d..];
    assert r[|r| - |tail|..] == name[|name| - |tail|..] == tail;
  }

  lemma RetiredTail(live: string, stamp: string)
    requires IsStamp(stamp)
    ensures var r := RetiredName(live, stamp); |r| >= 21 && r[|r| - 21..] == RETIRED_INFIX + stamp
  {
    hide IsMoment, Truncate;
    assert live + RETIRED_INFIX + stamp == live + (RETIRED_INFIX + stamp);
    TruncateKeepsTail(live, RETIRED_INFIX + stamp);
  }

  lemma CandidateTail(live: string, stamp: string)
    requires IsStamp(stamp)
    ensures var r := CandidateName(live, stamp); |r| >= 22 && r[|r| - 22..] == CANDIDATE_INFIX + stamp
  {
    hide IsMoment, Truncate;
    assert live + CANDIDATE_INFIX + stamp == live + (CANDIDATE_INFIX + stamp);
    TruncateKeepsTail(live, CANDIDATE_INFIX + stamp);
  }

  /** However long the live name is, a candidate never takes the name of a retired database. */
  lemma CandidateIsNotRetired(live: string, stamp: string, other: string)
    requires IsStamp(stamp) && IsStamp(other)
    ensures CandidateName(live, stamp) != RetiredName(live, other)
  {
    hide IsMoment, Truncate;
    CandidateTail(live, stamp);
    RetiredTail(live, other);
    var c, r := CandidateName(live, stamp), RetiredName(live, other);
    // the letter before "d_" and the stamp: "_cand_" against "_old_"
    assert c[|c| - 19] == c[|c| - 22..][3] == 'n';
    assert r[|r| - 19] == r[|r| - 21..][2] == 'l';
  }

  /** Different instants give different names. */
  lemma RetiredNamesDiffer(live: string, stamp: string, other: string)
    requires IsStamp(stamp) && IsStamp(other) && RetiredName(live, stamp) == RetiredName(live, other)
    ensures stamp == other
  {
    hide IsMoment, Truncate;
    RetiredTail(live, stamp);
    RetiredTail(live, other);
    assert (RETIRED_INFIX + stamp)[5..] == stamp && (RETIRED_INFIX + other)[5..] == other;
  }

  /** A generated name is the live name only for a live name of the full 63 bytes that ends in itself. */
  lemma GeneratedNamesAreNotLive(live: string, stamp: string)
    requires IsStamp(stamp)
    ensures CandidateName(live, stamp) == live <==>
            |live| == NAME_LIMIT && live == (live + CANDIDATE_INFIX + stamp)[22..]
    ensures RetiredName(live, stamp) == live <==>
            |live| == NAME_LIMIT && live == (live + RETIRED_INFIX + stamp)[21..]
  {
    hide IsMoment;
  }

  /**
   A retired database can be found again, listed, pruned or promoted, exactly when the live
   name has at most 42 bytes: beyond that the truncation eats into the prefix the parser
   insists on.
   */
  lemma RetiredNameParsesBack(live: string, stamp: string)
    requires IsStamp(stamp)
    ensures ParseRetiredStamp(RetiredName(live, stamp), live) == Some(stamp) <==> |live| <= 42
    ensures |live| > 42 ==> ParseRetiredStamp(RetiredName(live, stamp), live) == None
  {
    hide IsMoment;
    var name := live + RETIRED_INFIX + stamp;
    var prefix := live + RETIRED_INFIX;
    assert name[|prefix|..] == stamp;
    if |live| <= 42 {
      assert RetiredName(live, stamp) == name;
    }
  }

  /** A catalog name the parser accepts is one retiredName gave exactly when no fraction follows the seconds. */
  lemma ParsedNameIsRetired(live: string, name: string)
    requires |name| <= NAME_LIMIT && ParseRetiredStamp(name, live).Some?
    ensures |live| <= 42
    ensures (exists stamp :: IsStamp(stamp) && name == RetiredName(live, stamp))
            <==> |ParseRetiredStamp(name, live).value| == STAMP_LENGTH
  {
    hide IsMoment;
    var prefix := live + RETIRED_INFIX;
    var text := ParseRetiredStamp(name, live).value;
    assert name == prefix + text;
    if |text| == STAMP_LENGTH {
      assert IsStamp(text) && name == RetiredName(live, text);
    }
    forall stamp | IsStamp(stamp) && name == RetiredName(live, stamp) ensures |text| == STAMP_LENGTH {
      assert |live + RETIRED_INFIX + stamp| <= NAME_LIMIT;
    }
  }

  /** Such a foreign name exists: it is taken for a retained database although no restore made it. */
  lemma ForeignNameIsAccepted() returns (live: string, name: string)
    ensures |name| <= NAME_LIMIT && ParseRetiredStamp(name, live).Some?
    ensures forall stamp :: IsStamp(stamp) ==> name != RetiredName(live, stamp)
  {
    live := "v";
    var text := "20240101T000000.5Z";
    name := live + RETIRED_INFIX + text;
    SomeStamp();
    assert text[..15] == "20240101T000000Z"[..15];
    assert text[16..17] == "5";
    assert name[|live + RETIRED_INFIX|..] == text;
    hide IsMoment;
    ParsedNameIsRetired(live, name);
  }
}
