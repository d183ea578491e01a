/** The branch record shown in the listing, and its three derived views:
    the name with the current-branch marker, the short hash and the
    formatted commit date. */
module Models {

  /** A timezone-aware date and time as a commit carries it: the wall-clock
      fields read in the committer's zone, and that zone's offset from UTC in
      seconds. */
  datatype DateTime = DateTime(
    year: nat, month: nat, day: nat,
    hour: nat, minute: nat, second: nat,
    utcOffset: int)

  predicate IsLeapYear(year: nat)
  {
    year % 4 == 0 && (year % 100 != 0 || year % 400 == 0)
  }

  function DaysInMonth(year: nat, month: nat): nat
  {
    if month == 2 then (if IsLeapYear(year) then 29 else 28)
    else if month == 4 || month == 6 || month == 9 || month == 11 then 30
    else 31
  }

  /** The values a datetime object can hold: years 1 to 9999, a real calendar
      day, a time of day, and an offset of less than a day. */
  predicate ValidDateTime(d: DateTime)
  {
    && 1 <= d.year <= 9999
    && 1 <= d.month <= 12
    && 1 <= d.day <= DaysInMonth(d.year, d.month)
    && d.hour < 24 && d.minute < 60 && d.second < 60
    && -86400 < d.utcOffset < 86400
  }

  /** Days from 1970-01-01 to the given day of the proleptic Gregorian calendar. */
  function DaysFromCivil(year: nat, month: nat, day: nat): int
  {
    var y := if month <= 2 then year - 1 else year;
    var era := y / 400;
    var yearOfEra := y - era * 400;
    var shiftedMonth := if month > 2 then month - 3 else month + 9;
    var dayOfYear := (153 * shiftedMonth + 2) / 5 + day - 1;
    var dayOfEra := yearOfEra * 365 + yearOfEra / 4 - yearOfEra / 100 + dayOfYear;
    era * 146097 + dayOfEra - 719468
  }

  /** The instant a datetime denotes, in seconds since 1970-01-01 00:00:00 UTC.
      Two aware datetimes compare as their instants do. */
  function Epoch(d: DateTime): int
  {
    DaysFromCivil(d.year, d.month, d.day) * 86400
      + d.hour * 3600 + d.minute * 60 + d.second
      - d.utcOffset
  }

  /** Information about one branch, local or remote-tracking. */
  datatype BranchInfo = BranchInfo(
    name: string,
    commitHash: string,
    commitDate: DateTime,
    commitMessage: string,
    isCurrent: bool,
    isRemote: bool)

  /** The name preceded by "* " for the current branch and by two spaces
      otherwise. */
  function DisplayName(b: BranchInfo): (r: string)
    ensures |r| == |b.name| + 2
    ensures r[2..] == b.name
    ensures r[1] == ' '
    ensures r[0] == (if b.isCurrent then '*' else ' ')
  {
    (if b.isCurrent then "* " else "  ") + b.name
  }

  /** The first seven characters of the commit hash, or all of it when it is shorter. */
  function ShortHash(b: BranchInfo): (r: string)
    ensures r <= b.commitHash
    ensures |r| == if |b.commitHash| < 7 then |b.commitHash| else 7
  {
    if |b.commitHash| < 7 then b.commitHash else b.commitHash[..7]
  }

  // Decimal digits, as strftime writes the fields of a date.

  predicate IsDigit(c: char)
  {
    '0' <= c <= '9'
  }

  predicate AllDigits(s: string)
  {
    forall k :: 0 <= k < |s| ==> IsDigit(s[k])
  }

  function DigitChar(n: nat): (c: char)
    requires n < 10
    ensures IsDigit(c)
  {
    ('0' as int + n) as char
  }

  function DigitValue(c: char): nat
    requires IsDigit(c)
  {
    c as int - '0' as int
  }

  /** The shortest decimal spelling of `n`. */
  function Decimal(n: nat): (r: string)
    ensures r != []
    ensures AllDigits(r)
  {
    if n < 10 then [DigitChar(n)] else Decimal(n / 10) + [DigitChar(n % 10)]
  }

  function Zeros(k: nat): (r: string)
    ensures |r| == k
    ensures forall i :: 0 <= i < k ==> r[i] == '0'
  {
    seq(k, _ => '0')
  }

  /** `n` in decimal, padded on the left with zeros to at least `width` characters
      (the `%0<width>d` conversion). */
  function ZeroPad(n: nat, width: nat): (r: string)
    ensures AllDigits(r)
  {
    var digits := Decimal(n);
    if |digits| < width then Zeros(width - |digits|) + digits else digits
  }

  /** The number a string of decimal digits spells. */
  function DigitsValue(s: string): nat
    requires AllDigits(s)
  {
    if s == [] then 0 else DigitsValue(s[..|s| - 1]) * 10 + DigitValue(s[|s| - 1])
  }

  function Pow10(k: nat): nat
  {
    if k == 0 then 1 else 10 * Pow10(k - 1)
  }

  /** `strftime("%Y-%m-%d %H:%M:%S")` on the commit date's wall-clock fields. */
  function FormattedDate(b: BranchInfo): string
  {
    var d := b.commitDate;
    ZeroPad(d.year, 4) + "-" + ZeroPad(d.month, 2) + "-" + ZeroPad(d.day, 2) + " "
      + ZeroPad(d.hour, 2) + ":" + ZeroPad(d.minute, 2) + ":" + ZeroPad(d.second, 2)
  }

  /** Reads back a date written as "YYYY-MM-DD HH:MM:SS". */
  function ParseFormattedDate(s: string): (r: ParsedDate)
  {
    if |s| == 19 && s[4] == '-' && s[7] == '-' && s[10] == ' ' && s[13] == ':' && s[16] == ':'
       && AllDigits(s[..4]) && AllDigits(s[5..7]) && AllDigits(s[8..10])
       && AllDigits(s[11..13]) && AllDigits(s[14..16]) && AllDigits(s[17..])
    then Fields(DigitsValue(s[..4]), DigitsValue(s[5..7]), DigitsValue(s[8..10]),
                DigitsValue(s[11..13]), DigitsValue(s[14..16]), DigitsValue(s[17..]))
    else Unparsable
  }

  /** The six wall-clock fields read back from a formatted date, if it has the layout. */
  datatype ParsedDate =
    | Unparsable
    | Fields(year: nat, month: nat, day: nat, hour: nat, minute: nat, second: nat)

  /** Reading the spelling of `n` gives `n` back. */
  lemma {:induction false} DecimalRoundTrip(n: nat)
    ensures DigitsValue(Decimal(n)) == n
  {
    if n >= 10 {
      var r := Decimal(n);
      assert r[..|r| - 1] == Decimal(n / 10);
      DecimalRoundTrip(n / 10);
    }
  }

  /** Leading zeros do not change the value of a digit string. */
  lemma {:induction false} LeadingZeros(k: nat, s: string)
    requires AllDigits(s)
    ensures AllDigits(Zeros(k) + s)
    ensures DigitsValue(Zeros(k) + s) == DigitsValue(s)
    decreases |s|, k
  {
    var z := Zeros(k) + s;
    if s == [] {
      assert z == Zeros(k);
      if k > 0 {
        assert z[..|z| - 1] == Zeros(k - 1) + [];
        LeadingZeros(k - 1, []);
      }
    } else {
      assert z[..|z| - 1] == Zeros(k) + s[..|s| - 1];
      LeadingZeros(k, s[..|s| - 1]);
    }
  }

  /** A number below 10^k has at most k digits. */
  lemma {:induction false} DecimalLength(n: nat, k: nat)
    requires 1 <= k
    requires n < Pow10(k)
    ensures |Decimal(n)| <= k
  {
    if n >= 10 {
      assert Pow10(1) == 10;
      assert n / 10 < Pow10(k - 1);
      DecimalLength(n / 10, k - 1);
    }
  }

  /** Padding a number below 10^width gives exactly `width` digits that read back as the number. */
  lemma ZeroPadExact(n: nat, width: nat)
    requires 1 <= width
    requires n < Pow10(width)
    ensures |ZeroPad(n, width)| == width
    ensures DigitsValue(ZeroPad(n, width)) == n
  {
    DecimalLength(n, width);
    DecimalRoundTrip(n);
    if |Decimal(n)| < width {
      LeadingZeros(width - |Decimal(n)|, Decimal(n));
    }
  }

  /** Where `field`, `sep` and `rest` follow one another from position `i` of `s`, the
      slices of `s` at the matching positions are those three. */
  lemma PeelAt(s: string, i: nat, field: string, sep: char, rest: string)
    requires i <= |s| && s[i..] == field + [sep] + rest
    ensures i + |field| < |s|
    ensures s[i..i + |field|] == field && s[i + |field|] == sep && s[i + |field| + 1..] == rest
  {
    assert s[i..][..|field|] == field;
    assert s[i..][|field| + 1..] == rest;
  }

  /** The slices the parser reads out of six fields of the layout's widths joined by its separators. */
  lemma LayoutSlices(year: string, month: string, day: string, hour: string, minute: string, second: string)
    requires |year| == 4 && |month| == 2 && |day| == 2 && |hour| == 2 && |minute| == 2 && |second| == 2
    ensures var s := year + "-" + month + "-" + day + " " + hour + ":" + minute + ":" + second;
            && |s| == 19 && s[4] == '-' && s[7] == '-' && s[10] == ' ' && s[13] == ':' && s[16] == ':'
            && s[..4] == year && s[5..7] == month && s[8..10] == day
            && s[11..13] == hour && s[14..16] == minute && s[17..] == second
  {
    var r4 := minute + [':'] + second;
    var r3 := hour + [':'] + r4;
    var r2 := day + [' '] + r3;
    var r1 := month + ['-'] + r2;
    var s := year + "-" + month + "-" + day + " " + hour + ":" + minute + ":" + second;
    assert s[0..] == year + ['-'] + r1;
    PeelAt(s, 0, year, '-', r1);
    PeelAt(s, 5, month, '-', r2);
    PeelAt(s, 8, day, ' ', r3);
    PeelAt(s, 11, hour, ':', r4);
    PeelAt(s, 14, minute, ':', second);
    assert s[..4] == s[0..4];
  }

  /** A string with the layout's separators and digit fields parses to the fields' values. */
  lemma ParseLayout(s: string)
    requires |s| == 19 && s[4] == '-' && s[7] == '-' && s[10] == ' ' && s[13] == ':' && s[16] == ':'
    requires AllDigits(s[..4]) && AllDigits(s[5..7]) && AllDigits(s[8..10])
    requires AllDigits(s[11..13]) && AllDigits(s[14..16]) && AllDigits(s[17..])
    ensures ParseFormattedDate(s)
            == Fields(DigitsValue(s[..4]), DigitsValue(s[5..7]), DigitsValue(s[8..10]),
                      DigitsValue(s[11..13]), DigitsValue(s[14..16]), DigitsValue(s[17..]))
  {
  }

  /** For every date a datetime can hold, the formatted date is the 19-character
      "YYYY-MM-DD HH:MM:SS" layout, and reading it back gives the six wall-clock fields. */
  lemma FormattedDateRoundTrip(b: BranchInfo)
    requires ValidDateTime(b.commitDate)
    ensures |FormattedDate(b)| == 19
    ensures ParseFormattedDate(FormattedDate(b))
         == Fields(b.commitDate.year, b.commitDate.month, b.commitDate.day,
                   b.commitDate.hour, b.commitDate.minute, b.commitDate.second)
  {
    var d := b.commitDate;
    assert Pow10(2) == 100;
    assert Pow10(4) == 10000;
    ZeroPadExact(d.year, 4);
    ZeroPadExact(d.month, 2);
    ZeroPadExact(d.day, 2);
    ZeroPadExact(d.hour, 2);
    ZeroPadExact(d.minute, 2);
    ZeroPadExact(d.second, 2);
    var year, month, day := ZeroPad(d.year, 4), ZeroPad(d.month, 2), ZeroPad(d.day, 2);
    var hour, minute, second := ZeroPad(d.hour, 2), ZeroPad(d.minute, 2), ZeroPad(d.second, 2);
    LayoutSlices(year, month, day, hour, minute, second);
    ParseLayout(FormattedDate(b));
  }

  /** 15 January 2024, 10:30:45 is written "2024-01-15 10:30:45". */
  lemma FormattedDateExample(b: BranchInfo)
    requires b.commitDate == DateTime(2024, 1, 15, 10, 30, 45, 0)
    ensures FormattedDate(b) == "2024-01-15 10:30:45"
  {
    assert Decimal(2024) == Decimal(202) + ['4'];
    assert Decimal(202) == Decimal(20) + ['2'];
    assert Decimal(20) == Decimal(2) + ['0'];
    assert ZeroPad(1, 2) == "01";
    assert Decimal(15) == Decimal(1) + ['5'];
    assert Decimal(10) == Decimal(1) + ['0'];
    assert Decimal(30) == Decimal(3) + ['0'];
    assert Decimal(45) == Decimal(4) + ['5'];
  }

}
