/** Calendar versions as scripts/openclaw-npm-release-check.ts reads them. */
module ReleaseVersion {
  import opened Base
  import opened Text
  import opened UtcCalendar

  datatype Suffix = Stable | Beta(number: string) | Correction(number: string)

  /** The named groups of a match. */
  datatype Groups = Groups(year: string, month: string, day: string, suffix: Suffix)

  // ---------------------------------------------------------------- the three patterns, declaratively

  predicate IsYear(s: string) {
    |s| == 4 && IsDigits(s)
  }

  /** No leading zero. */
  predicate IsPositiveNumeral(s: string) {
    IsDigits(s) && s[0] != '0'
  }

  predicate IsMonthOrDay(s: string) {
    IsPositiveNumeral(s) && |s| <= 2
  }

  predicate WellFormed(g: Groups) {
    && IsYear(g.year) && IsMonthOrDay(g.month) && IsMonthOrDay(g.day)
    && (g.suffix.Beta? ==> IsPositiveNumeral(g.suffix.number))
    && (g.suffix.Correction? ==> IsPositiveNumeral(g.suffix.number))
  }

  function SuffixText(suffix: Suffix): string {
    match suffix
    case Stable => ""
    case Beta(number) => "-beta." + number
    case Correction(number) => "-" + number
  }

  /** The only text with these groups. */
  function Written(g: Groups): string {
    g.year + ("." + (g.month + ("." + (g.day + SuffixText(g.suffix)))))
  }

  // ---------------------------------------------------------------- matching

  function DigitRun(s: string): (n: nat)
    ensures n <= |s|
    ensures forall i | 0 <= i < n :: IsDigit(s[i])
    ensures n < |s| ==> !IsDigit(s[n])
  {
    if s != "" && IsDigit(s[0]) then 1 + DigitRun(s[1..]) else 0
  }

  /** A month or day at the front of the text, and what follows it. */
  function MatchMonthOrDay(s: string): Option<(string, string)> {
    var n := DigitRun(s);
    if IsMonthOrDay(s[..n]) then Some((s[..n], s[n..])) else None
  }

  function MatchDot(s: string): Option<string> {
    if s != "" && s[0] == '.' then Some(s[1..]) else None
  }

  /** `^(\d{4})\.([1-9]\d?)\.([1-9]\d?)` and the rest of the text. */
  function MatchDate(s: string): Option<(string, string, string, string)> {
    if !(|s| >= 4 && IsYear(s[..4])) then None
    else
      var afterYear := MatchDot(s[4..]);
      if afterYear.None? then None
      else
        var month := MatchMonthOrDay(afterYear.value);
        if month.None? then None
        else
          var afterMonth := MatchDot(month.value.1);
          if afterMonth.None? then None
          else
            var day := MatchMonthOrDay(afterMonth.value);
            if day.None? then None
            else Some((s[..4], month.value.0, day.value.0, day.value.1))
  }

  function StableMatch(s: string): Option<Groups> {
    var date := MatchDate(s);
    if date.Some? && date.value.3 == "" then Some(Groups(date.value.0, date.value.1, date.value.2, Stable)) else None
  }

  function BetaMatch(s: string): Option<Groups> {
    var date := MatchDate(s);
    if date.Some? && "-beta." <= date.value.3 && IsPositiveNumeral(date.value.3[6..])
    then Some(Groups(date.value.0, date.value.1, date.value.2, Beta(date.value.3[6..]))) else None
  }

  function CorrectionMatch(s: string): Option<Groups> {
    var date := MatchDate(s);
    if date.Some? && "-" <= date.value.3 && IsPositiveNumeral(date.value.3[1..])
    then Some(Groups(date.value.0, date.value.1, date.value.2, Correction(date.value.3[1..]))) else None
  }

  // ---------------------------------------------------------------- matching means what the patterns say

  lemma {:induction false} DigitRunStops(run: string, rest: string)
    requires forall c | c in run :: IsDigit(c)
    requires rest != "" ==> !IsDigit(rest[0])
    ensures DigitRun(run + rest) == |run|
  {
    if run == "" {
      assert run + rest == rest;
    } else {
      assert (run + rest)[0] == run[0] && run[0] in run;
      assert (run + rest)[1..] == run[1..] + rest;
      DigitRunStops(run[1..], rest);
    }
  }

  lemma MonthOrDayFound(run: string, rest: string)
    requires IsMonthOrDay(run) && (rest != "" ==> !IsDigit(rest[0]))
    ensures MatchMonthOrDay(run + rest) == Some((run, rest))
  {
    DigitRunStops(run, rest);
    assert (run + rest)[..|run|] == run && (run + rest)[|run|..] == rest;
  }

  lemma DotFound(rest: string)
    ensures MatchDot("." + rest) == Some(rest)
  {
  }

  lemma SuffixStartsClean(suffix: Suffix)
    ensures SuffixText(suffix) != "" ==> !IsDigit(SuffixText(suffix)[0])
  {
  }

  /** A written date is matched, with its groups and the rest. */
  lemma DateFound(g: Groups)
    requires WellFormed(g)
    ensures MatchDate(Written(g)) == Some((g.year, g.month, g.day, SuffixText(g.suffix)))
  {
    var rest := SuffixText(g.suffix);
    var fromDay := g.day + rest;
    var fromMonth := g.month + ("." + fromDay);
    assert Written(g)[..4] == g.year && Written(g)[4..] == "." + fromMonth;
    DotFound(fromMonth);
    MonthOrDayFound(g.month, "." + fromDay);
    DotFound(fromDay);
    SuffixStartsClean(g.suffix);
    MonthOrDayFound(g.day, rest);
  }

  lemma DotSplits(s: string)
    requires MatchDot(s).Some?
    ensures s == "." + MatchDot(s).value
  {
  }

  lemma MonthOrDaySplits(s: string)
    requires MatchMonthOrDay(s).Some?
    ensures IsMonthOrDay(MatchMonthOrDay(s).value.0)
    ensures s == MatchMonthOrDay(s).value.0 + MatchMonthOrDay(s).value.1
  {
  }

  /** A match splits the text into its groups. */
  lemma DateSplits(s: string)
    requires MatchDate(s).Some?
    ensures var (year, month, day, rest) := MatchDate(s).value;
            && IsYear(year) && IsMonthOrDay(month) && IsMonthOrDay(day)
            && s == year + ("." + (month + ("." + (day + rest))))
  {
    var afterYear := MatchDot(s[4..]).value;
    var afterMonth := MatchDot(MatchMonthOrDay(afterYear).value.1).value;
    assert s == s[..4] + s[4..];
    DotSplits(s[4..]);
    MonthOrDaySplits(afterYear);
    DotSplits(MatchMonthOrDay(afterYear).value.1);
    MonthOrDaySplits(afterMonth);
  }

  lemma SuffixRead(suffix: Suffix)
    requires suffix.Beta? || suffix.Correction? ==> IsPositiveNumeral(suffix.number)
    ensures var t := SuffixText(suffix);
            && (t == "" <==> suffix.Stable?)
            && ("-beta." <= t && IsPositiveNumeral(t[6..]) <==> suffix.Beta?)
            && ("-" <= t && IsPositiveNumeral(t[1..]) <==> suffix.Correction?)
            && (suffix.Beta? ==> t[6..] == suffix.number)
            && (suffix.Correction? ==> t[1..] == suffix.number)
  {
    match suffix
    case Stable =>
    case Beta(number) =>
      assert ("-beta." + number)[6..] == number;
      assert ("-beta." + number)[1] == 'b';
      assert ("-beta." + number)[1..][0] == 'b';
      assert !IsDigit('b') && 'b' in ("-beta." + number)[1..];
    case Correction(number) =>
      assert ("-" + number)[1..] == number;
      assert ("-" + number)[1] == number[0];
      assert number[0] in number;
  }

  /** Each pattern matches exactly the texts of its own form, so no text matches two. */
  lemma PatternsAreExact(g: Groups)
    requires WellFormed(g)
    ensures StableMatch(Written(g)) == if g.suffix.Stable? then Some(g) else None
    ensures BetaMatch(Written(g)) == if g.suffix.Beta? then Some(g) else None
    ensures CorrectionMatch(Written(g)) == if g.suffix.Correction? then Some(g) else None
  {
    DateFound(g);
    SuffixRead(g.suffix);
  }

  function AnyMatch(s: string): Option<Groups> {
    if StableMatch(s).Some? then StableMatch(s)
    else if BetaMatch(s).Some? then BetaMatch(s)
    else CorrectionMatch(s)
  }

  /** Every text written from well-formed groups is matched, with these groups: no text has two readings. */
  lemma WrittenIsMatched(g: Groups)
    requires WellFormed(g)
    ensures AnyMatch(Written(g)) == Some(g)
  {
    PatternsAreExact(g);
  }

  lemma SuffixSplits(rest: string)
    ensures "-beta." <= rest ==> rest == "-beta." + rest[6..]
    ensures "-" <= rest ==> rest == "-" + rest[1..]
  {
  }

  /** And nothing else is matched. */
  lemma MatchedIsWritten(s: string)
    requires AnyMatch(s).Some?
    ensures WellFormed(AnyMatch(s).value) && Written(AnyMatch(s).value) == s
  {
    DateSplits(s);
    var (year, month, day, rest) := MatchDate(s).value;
    SuffixSplits(rest);
    var g := AnyMatch(s).value;
    assert g.year == year && g.month == month && g.day == day && SuffixText(g.suffix) == rest;
  }

  // ---------------------------------------------------------------- parsing

  datatype Channel = StableChannel | BetaChannel

  datatype Parsed = Parsed(version: string, baseVersion: string, channel: Channel, year: nat, month: nat, day: nat,
                           betaNumber: Option<nat>, correctionNumber: Option<nat>, date: int)

  ghost function ParseDateParts(version: string, g: Groups, channel: Channel): Option<Parsed>
    requires WellFormed(g) && (channel == BetaChannel ==> g.suffix.Beta?)
  {
    var year, month, day := ParseDigits(g.year), ParseDigits(g.month), ParseDigits(g.day);
    var beta := if channel == BetaChannel then Some(ParseDigits(g.suffix.number)) else None;
    if month < 1 || month > 12 || day < 1 || day > 31 then None
    else if beta.Some? && beta.value < 1 then None
    else if CivilOf(UtcDay(Civil(year, month - 1, day))) != Civil(year, month - 1, day) then None
    else Some(Parsed(version, Numeral(year) + "." + Numeral(month) + "." + Numeral(day), channel, year, month, day,
                     beta, None, UtcDay(Civil(year, month - 1, day))))
  }

  lemma StableMatched(s: string)
    ensures StableMatch(s).Some? ==> AnyMatch(s) == StableMatch(s) && StableMatch(s).value.suffix.Stable?
    ensures StableMatch(s).None? && BetaMatch(s).Some? ==>
              AnyMatch(s) == BetaMatch(s) && BetaMatch(s).value.suffix.Beta?
    ensures StableMatch(s).None? && BetaMatch(s).None? && CorrectionMatch(s).Some? ==>
              AnyMatch(s) == CorrectionMatch(s) && CorrectionMatch(s).value.suffix.Correction?
    ensures AnyMatch(s).Some? ==> WellFormed(AnyMatch(s).value)
  {
  }

  ghost function ParseReleaseVersion(version: string): Option<Parsed> {
    var trimmed := Trim(version);
    StableMatched(trimmed);
    if trimmed == "" then None
    else if StableMatch(trimmed).Some? then ParseDateParts(trimmed, StableMatch(trimmed).value, StableChannel)
    else if BetaMatch(trimmed).Some? then ParseDateParts(trimmed, BetaMatch(trimmed).value, BetaChannel)
    else if CorrectionMatch(trimmed).Some? then
      var g := CorrectionMatch(trimmed).value;
      var parsed := ParseDateParts(trimmed, g, StableChannel);
      if parsed.None? || ParseDigits(g.suffix.number) < 1 then None
      else Some(parsed.value.(correctionNumber := Some(ParseDigits(g.suffix.number))))
    else None
  }

  // ---------------------------------------------------------------- what is accepted, and as what

  function DateOf(g: Groups): Civil
    requires WellFormed(g)
  {
    Civil(ParseDigits(g.year), ParseDigits(g.month) - 1, ParseDigits(g.day))
  }

  /** The parsed fields of an accepted version. */
  function FieldsOf(version: string, g: Groups): Parsed
    requires WellFormed(g) && 0 <= DateOf(g).month < 12
  {
    var c := DateOf(g);
    Parsed(version, Numeral(c.year) + "." + Numeral(c.month + 1) + "." + Numeral(c.day),
           if g.suffix.Beta? then BetaChannel else StableChannel, c.year, c.month + 1, c.day,
           if g.suffix.Beta? then Some(ParseDigits(g.suffix.number)) else None,
           if g.suffix.Correction? then Some(ParseDigits(g.suffix.number)) else None,
           UtcDay(c))
  }

  lemma MonthLengths(y: int, m: int)
    requires 0 <= m < 12
    ensures 28 <= DaysInMonth(y, m) <= 31
  {
  }

  lemma DatePartsMeaning(version: string, g: Groups, channel: Channel)
    requires WellFormed(g) && channel == if g.suffix.Beta? then BetaChannel else StableChannel
    ensures ParseDateParts(version, g, channel) ==
            if IsReal(DateOf(g)) && DateOf(g).year >= 100
            then Some(FieldsOf(version, g).(correctionNumber := None)) else None
  {
    NumeralParse(g.month);
    NumeralParse(g.day);
    if g.suffix.Beta? {
      NumeralParse(g.suffix.number);
    }
    var c := DateOf(g);
    if 0 <= c.month < 12 {
      UtcReadsBack(c);
      MonthLengths(c.year, c.month);
    }
  }

  lemma AcceptsMatchedDates(version: string)
    ensures var trimmed := Trim(version);
            ParseReleaseVersion(version) ==
            if AnyMatch(trimmed).Some? && WellFormed(AnyMatch(trimmed).value)
               && IsReal(DateOf(AnyMatch(trimmed).value)) && DateOf(AnyMatch(trimmed).value).year >= 100
            then Some(FieldsOf(trimmed, AnyMatch(trimmed).value)) else None
  {
    var trimmed := Trim(version);
    StableMatched(trimmed);
    if AnyMatch(trimmed).Some? {
      var g := AnyMatch(trimmed).value;
      DatePartsMeaning(trimmed, g, if g.suffix.Beta? then BetaChannel else StableChannel);
      if g.suffix.Correction? {
        NumeralParse(g.suffix.number);
      }
    }
  }

  /** Only texts written from groups are accepted. */
  lemma AcceptedIsWritten(version: string)
    requires ParseReleaseVersion(version).Some?
    ensures exists g :: WellFormed(g) && Written(g) == Trim(version)
  {
    AcceptsMatchedDates(version);
    MatchedIsWritten(Trim(version));
  }

  /**
   * A text written from groups is accepted exactly when its date is in the Gregorian calendar and its
   * year is not below 100, and the result holds the fields as written.
   */
  lemma AcceptsRealDates(version: string, g: Groups)
    requires WellFormed(g) && Trim(version) == Written(g)
    ensures var year, month, day := ParseDigits(g.year), ParseDigits(g.month), ParseDigits(g.day);
            var r := ParseReleaseVersion(version);
            && (r.Some? <==> year >= 100 && IsGregorianDay(year, month, day))
            && (r.Some? ==>
                && r.value.version == Trim(version)
                && r.value.baseVersion == Numeral(year) + "." + g.month + "." + g.day
                && r.value.channel == (if g.suffix.Beta? then BetaChannel else StableChannel)
                && r.value.year == year && r.value.month == month && r.value.day == day
                && r.value.betaNumber == (if g.suffix.Beta? then Some(ParseDigits(g.suffix.number)) else None)
                && r.value.correctionNumber ==
                   (if g.suffix.Correction? then Some(ParseDigits(g.suffix.number)) else None)
                && r.value.date == MakeDay(Civil(year, month - 1, day)))
  {
    AcceptsMatchedDates(version);
    WrittenIsMatched(g);
    RealIsGregorian(ParseDigits(g.year), ParseDigits(g.month), ParseDigits(g.day));
    NumeralParse(g.month);
    NumeralParse(g.day);
  }

  // ---------------------------------------------------------------- printing the fields

  /** The version text made from the parsed fields alone. */
  function Printed(p: Parsed): string {
    p.baseVersion +
    if p.betaNumber.Some? then "-beta." + Numeral(p.betaNumber.value)
    else if p.correctionNumber.Some? then "-" + Numeral(p.correctionNumber.value)
    else ""
  }

  lemma PrintedParts(g: Groups)
    requires WellFormed(g) && IsReal(DateOf(g))
    ensures Printed(FieldsOf(Written(g), g)) ==
            Numeral(ParseDigits(g.year)) + ("." + (g.month + ("." + (g.day + SuffixText(g.suffix)))))
  {
    NumeralParse(g.month);
    NumeralParse(g.day);
    if !g.suffix.Stable? {
      NumeralParse(g.suffix.number);
    }
    var p := FieldsOf(Written(g), g);
    var year := Numeral(ParseDigits(g.year));
    assert p.baseVersion == year + "." + g.month + "." + g.day;
    JoinAssociates(year, g.month, g.day, SuffixText(g.suffix));
  }

  lemma JoinAssociates(a: string, b: string, c: string, rest: string)
    ensures a + "." + b + "." + c + rest == a + ("." + (b + ("." + (c + rest))))
  {
  }

  lemma YearKeepsDigits(year: string)
    requires IsYear(year)
    ensures year[0] != '0' <==> ParseDigits(year) >= 1000
  {
    assert year[0] in year && year[1] in year && year[2] in year && year[3] in year;
    YearDigits(year);
  }

  /** Printing the fields of an accepted version gives its trimmed text back exactly from the year 1000 on. */
  lemma PrintingRestoresVersion(version: string)
    requires ParseReleaseVersion(version).Some?
    ensures var p := ParseReleaseVersion(version).value;
            Printed(p) == Trim(version) <==> p.year >= 1000
  {
    var trimmed := Trim(version);
    AcceptsMatchedDates(version);
    MatchedIsWritten(trimmed);
    var g := AnyMatch(trimmed).value;
    PrintedParts(g);
    YearKeepsDigits(g.year);
    YearNumeral(g.year);
    var rest := "." + (g.month + ("." + (g.day + SuffixText(g.suffix))));
    var year := Numeral(ParseDigits(g.year));
    if year + rest == g.year + rest {
      assert |year| == |g.year|;
      assert year == (year + rest)[..4] && g.year == (g.year + rest)[..4];
    }
  }

  lemma YearNumeral(year: string)
    requires IsYear(year)
    ensures Numeral(ParseDigits(year)) == year <==> year[0] != '0'
  {
    if year[0] == '0' {
      PaddedNumeral(year);
    } else {
      NumeralParse(year);
    }
  }

  lemma FirstOfJanuary(year: string)
    requires IsYear(year)
    ensures Trim(year + ".1.1") == year + ".1.1"
    ensures ParseReleaseVersion(year + ".1.1").Some? <==> ParseDigits(year) >= 100
    ensures ParseReleaseVersion(year + ".1.1").Some? ==>
              ParseReleaseVersion(year + ".1.1").value.year == ParseDigits(year)
  {
    var version := year + ".1.1";
    var g := Groups(year, "1", "1", Stable);
    assert Written(g) == version;
    assert ParseDigits("1") == 1;
    assert year[0] in year;
    TrimmedFixpoint(version);
    WrittenIsMatched(g);
    AcceptsMatchedDates(version);
  }

  /** The first of January 99 is refused, and printing the first of January 999 loses a digit. */
  lemma EarlyYears()
    ensures ParseReleaseVersion("0099.1.1").None?
    ensures ParseReleaseVersion("0999.1.1").Some? && Printed(ParseReleaseVersion("0999.1.1").value) != "0999.1.1"
  {
    assert "0099" + ".1.1" == "0099.1.1" && "0999" + ".1.1" == "0999.1.1";
    YearDigits("0099");
    YearDigits("0999");
    FirstOfJanuary("0099");
    FirstOfJanuary("0999");
    PrintingRestoresVersion("0999.1.1");
  }

  lemma YearDigits(year: string)
    requires IsYear(year)
    ensures ParseDigits(year) == 1000 * DigitValue(year[0]) + 100 * DigitValue(year[1]) + 10 * DigitValue(year[2])
                                 + DigitValue(year[3])
  {
    assert year[..3][..2][..1] == year[..1] && year[..3][..2] == year[..2] && year[..1][..0] == "";
    assert ParseDigits(year[..1]) == DigitValue(year[0]);
    assert ParseDigits(year[..2]) == 10 * DigitValue(year[0]) + DigitValue(year[1]);
    assert ParseDigits(year[..3]) == 100 * DigitValue(year[0]) + 10 * DigitValue(year[1]) + DigitValue(year[2]);
  }

  // ---------------------------------------------------------------- four texts

  lemma SmallNumbers()
    ensures ParseDigits("2026") == 2026 && ParseDigits("4") == 4 && ParseDigits("5") == 5
    ensures ParseDigits("31") == 31 && ParseDigits("12") == 12
  {
    YearDigits("2026");
    DigitByDigit("", '4');
    DigitByDigit("", '5');
    DigitByDigit("", '3');
    DigitByDigit("3", '1');
    DigitByDigit("", '1');
    DigitByDigit("1", '2');
    assert "" + "4" == "4" && "" + "5" == "5" && "" + "3" == "3" && "3" + "1" == "31";
    assert "" + "1" == "1" && "1" + "2" == "12";
  }

  lemma StartsAndEndsWithDigits(version: string)
    requires version != "" && IsDigit(version[0]) && IsDigit(version[|version| - 1])
    ensures Trim(version) == version
  {
    TrimmedFixpoint(version);
  }

  lemma LastDayOf(version: string, month: string, suffix: Suffix)
    requires month == "4" || month == "5"
    requires suffix == Stable || suffix == Beta("12") || suffix == Correction("12")
    requires version == "2026." + month + ".31" + SuffixText(suffix)
    ensures ParseReleaseVersion(version).Some? <==> month == "5"
    ensures month == "5" ==>
              var p := ParseReleaseVersion(version).value;
              && p.version == version && p.year == 2026 && p.month == 5 && p.day == 31
              && (p.betaNumber == if suffix.Beta? then Some(12) else None)
              && (p.correctionNumber == if suffix.Correction? then Some(12) else None)
  {
    var g := Groups("2026", month, "31", suffix);
    LastDayText(version, month, suffix);
    SmallNumbers();
    AcceptsRealDates(version, g);
  }

  lemma LastDayText(version: string, month: string, suffix: Suffix)
    requires month == "4" || month == "5"
    requires suffix == Stable || suffix == Beta("12") || suffix == Correction("12")
    requires version == "2026." + month + ".31" + SuffixText(suffix)
    ensures WellFormed(Groups("2026", month, "31", suffix))
    ensures Written(Groups("2026", month, "31", suffix)) == version == Trim(version)
  {
    var g := Groups("2026", month, "31", suffix);
    assert Written(g) == version;
    StartsAndEndsWithDigits(version);
  }

  /** May has a day 31 and April has none. */
  lemma EndOfMayAndApril()
    ensures ParseReleaseVersion("2026.5.31").Some? && ParseReleaseVersion("2026.4.31").None?
    ensures ParseReleaseVersion("2026.5.31-beta.12").Some?
    ensures ParseReleaseVersion("2026.5.31-beta.12").value.betaNumber == Some(12)
    ensures ParseReleaseVersion("2026.5.31-12").Some?
    ensures ParseReleaseVersion("2026.5.31-12").value.correctionNumber == Some(12)
  {
    assert "2026." + "5" + ".31" + "" == "2026.5.31" && "2026." + "4" + ".31" + "" == "2026.4.31";
    assert "2026." + "5" + ".31" + ("-beta." + "12") == "2026.5.31-beta.12";
    assert "2026." + "5" + ".31" + ("-" + "12") == "2026.5.31-12";
    LastDayOf("2026.5.31", "5", Stable);
    LastDayOf("2026.4.31", "4", Stable);
    LastDayOf("2026.5.31-beta.12", "5", Beta("12"));
    LastDayOf("2026.5.31-12", "5", Correction("12"));
  }
}
