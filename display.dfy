/**
 * What the selection screens show of a composer: the one-line summary of a
 * log and the `YYYYMMDD_HHMM` stamp of the default file name.
 */
module Display {
  import opened Types
  import opened Wrappers
  import opened JsString

  const SUMMARY_WIDTH := 50
  const ELLIPSIS := "..."

  /** `composer.name || composer.text || ''`. */
  function SummarySource(c: ComposerChat): string {
    if c.name != "" then c.name else c.text
  }

  /** `text.split('\n')[0].trim()`. */
  function FirstLine(text: string): string {
    Trim(Split(text)[0])
  }

  /** A piece of a string without newlines has none. */
  lemma PieceWithoutNewline(s: string, r: string, i: nat)
    requires '\n' !in s && OccursAt(s, r, i)
    ensures '\n' !in r
  {
    forall k | 0 <= k < |r| ensures r[k] != '\n' {
      assert r[k] == s[i + k];
    }
  }

  /** The trimmed first line has no newline. */
  lemma FirstLineNoNewline(text: string)
    ensures '\n' !in FirstLine(text)
  {
    var line0 := Split(text)[0];
    var i := TrimPiece(line0);
    PieceWithoutNewline(line0, Trim(line0), i);
  }

  /**
   * `getLogSummary`: at most 50 characters and a single line; the trimmed first
   * line itself when it fits, else its first 47 characters and `...`.
   */
  function LogSummary(c: ComposerChat): (r: string)
    ensures |r| <= SUMMARY_WIDTH && '\n' !in r
    ensures |FirstLine(SummarySource(c))| <= SUMMARY_WIDTH ==> r == FirstLine(SummarySource(c))
    ensures |FirstLine(SummarySource(c))| > SUMMARY_WIDTH ==>
      |r| == SUMMARY_WIDTH && EndsWith(r, ELLIPSIS) && StartsWith(r, FirstLine(SummarySource(c))[..47])
  {
    var line := FirstLine(SummarySource(c));
    FirstLineNoNewline(SummarySource(c));
    if |line| > SUMMARY_WIDTH then
      var r := line[..47] + ELLIPSIS;
      assert OccursAt(line, line[..47], 0);
      PieceWithoutNewline(line, line[..47], 0);
      r
    else line
  }

  /** A piece of a prefix of `text` is a piece of `text`, and what precedes it is newline-free. */
  lemma PieceOfPrefix(text: string, line0: string, line: string, i: nat, n: nat)
    requires StartsWith(text, line0) && '\n' !in line0 && n <= |line|
    requires i + |line| <= |line0| && line0[i..i + |line|] == line
    ensures OccursAt(text, line[..n], i) && '\n' !in text[..i + n]
  {
    forall k | 0 <= k < n ensures text[i + k] == line[k] {
      assert line[k] == line0[i..i + |line|][k];
      assert text[..|line0|][i + k] == line0[i + k];
    }
    assert text[i..i + n] == line[..n];
    var before := text[..i + n];
    forall k | 0 <= k < |before| ensures before[k] != '\n' {
      assert text[..|line0|][k] == line0[k];
    }
  }

  /** The first `n` characters of the trimmed prefix `line0` lie in `text` before any newline. */
  lemma TrimmedPrefixPiece(text: string, line0: string, n: nat) returns (i: nat)
    requires StartsWith(text, line0) && '\n' !in line0 && n <= |Trim(line0)|
    ensures OccursAt(text, Trim(line0)[..n], i) && '\n' !in text[..i + n]
  {
    i := TrimPiece(line0);
    PieceOfPrefix(text, line0, Trim(line0), i, n);
  }

  /** The first `n` characters of the trimmed first line lie in the text before any newline. */
  lemma FirstLinePrefixPiece(text: string, n: nat) returns (i: nat)
    requires n <= |FirstLine(text)|
    ensures OccursAt(text, FirstLine(text)[..n], i) && '\n' !in text[..i + n]
  {
    FirstLineIsPrefix(text);
    i := TrimmedPrefixPiece(text, Split(text)[0], n);
  }

  /**
   * The summary is taken from the text before its first newline: what it keeps
   * of the trimmed first line is a contiguous piece of the text that ends
   * before any newline.
   */
  lemma LogSummaryFromFirstLine(c: ComposerChat)
    ensures var r := LogSummary(c);
            var kept := if |FirstLine(SummarySource(c))| > SUMMARY_WIDTH then r[..47] else r;
            exists i :: OccursAt(SummarySource(c), kept, i) && '\n' !in SummarySource(c)[..i + |kept|]
  {
    var text := SummarySource(c);
    var r := LogSummary(c);
    var line := FirstLine(text);
    var kept := if |line| > SUMMARY_WIDTH then r[..47] else r;
    assert kept == line[..|kept|];
    var i := FirstLinePrefixPiece(text, |kept|);
    assert OccursAt(text, kept, i);
  }

  /** The local calendar fields of a `Date`: `getFullYear()`, `getMonth()` (0-based), `getDate()`, `getHours()`, `getMinutes()`. */
  datatype DateFields = DateFields(year: int, month: nat, day: nat, hours: nat, minutes: nat)

  predicate ValidDate(d: DateFields) {
    d.month <= 11 && 1 <= d.day <= 31 && d.hours <= 23 && d.minutes <= 59
  }

  /** `String(n).padStart(2, '0')`. */
  function TwoDigits(n: nat): string {
    PadStart2(NatToString(n))
  }

  /**
   * `formatTimestamp`: year, month (1-based), day, `_`, hour, minute. Whatever
   * the year, a valid date's stamp is `String(year)` and then nine characters
   * ending in `_HHMM`.
   */
  function FormatTimestamp(d: DateFields): (r: string)
    ensures StartsWith(r, IntToString(d.year))
    ensures ValidDate(d) ==> |r| == |IntToString(d.year)| + 9 && r[|r| - 5] == '_' && AllDigits(r[|r| - 4..])
  {
    var y, mo, da, h, mi := IntToString(d.year), TwoDigits(d.month + 1), TwoDigits(d.day), TwoDigits(d.hours), TwoDigits(d.minutes);
    StampStart(y, mo, da, h, mi);
    if ValidDate(d) then
      TwoDigitsRoundTrip(d.month + 1);
      TwoDigitsRoundTrip(d.day);
      TwoDigitsRoundTrip(d.hours);
      TwoDigitsRoundTrip(d.minutes);
      StampTail(y, mo, da, h, mi);
      y + mo + da + "_" + h + mi
    else
      y + mo + da + "_" + h + mi
  }

  /** An assembled stamp starts with its year. */
  lemma StampStart(y: string, mo: string, da: string, h: string, mi: string)
    ensures StartsWith(y + mo + da + "_" + h + mi, y)
  {
    assert y + mo + da + "_" + h + mi == y + (mo + da + "_" + h + mi);
  }

  /** An assembled stamp of two-digit fields ends in `_` and four digits, nine characters after the year. */
  lemma StampTail(y: string, mo: string, da: string, h: string, mi: string)
    requires |mo| == 2 && |da| == 2 && |h| == 2 && |mi| == 2 && AllDigits(h) && AllDigits(mi)
    ensures var s := y + mo + da + "_" + h + mi;
            |s| == |y| + 9 && s[|s| - 5] == '_' && AllDigits(s[|s| - 4..])
  {
    var s := y + mo + da + "_" + h + mi;
    assert s == (y + mo + da) + ("_" + h + mi);
    assert s[|s| - 4..] == h + mi;
  }


  lemma NatToStringLength(n: nat)
    ensures n < 10 ==> |NatToString(n)| == 1
    ensures 10 <= n < 100 ==> |NatToString(n)| == 2
    ensures 100 <= n < 1000 ==> |NatToString(n)| == 3
    ensures 1000 <= n < 10000 ==> |NatToString(n)| == 4
  {
    if n >= 10 {
      NatToStringLength(n / 10);
    }
  }

  /** Below 100, `TwoDigits` is exactly two digits that read back as `n`. */
  lemma {:induction false} TwoDigitsRoundTrip(n: nat)
    requires n < 100
    ensures |TwoDigits(n)| == 2 && AllDigits(TwoDigits(n)) && DigitsValue(TwoDigits(n)) == n
  {
    var s := NatToString(n);
    NatToStringLength(n);
    if n < 10 {
      var t := "0" + s;
      assert t[..1] == "0";
      assert DigitsValue(t) == DigitsValue("0") * 10 + DigitsValue(s);
    }
  }

  /** Reads a stamp `YYYYMMDD_HHMM` back into its fields; `None` for anything else. */
  function ParseTimestamp(s: string): Option<DateFields> {
    if |s| == 13 && AllDigits(s[..4]) && AllDigits(s[4..6]) && AllDigits(s[6..8]) && s[8] == '_'
       && AllDigits(s[9..11]) && AllDigits(s[11..]) && DigitsValue(s[4..6]) >= 1
    then Some(DateFields(DigitsValue(s[..4]), DigitsValue(s[4..6]) - 1, DigitsValue(s[6..8]),
                         DigitsValue(s[9..11]), DigitsValue(s[11..])))
    else None
  }

  /** Where the five fields of an assembled stamp sit. */
  lemma StampSlices(y: string, mo: string, da: string, h: string, mi: string)
    requires |y| == 4 && |mo| == 2 && |da| == 2 && |h| == 2 && |mi| == 2
    ensures var s := y + mo + da + "_" + h + mi;
            |s| == 13 && s[..4] == y && s[4..6] == mo && s[6..8] == da && s[8] == '_' && s[9..11] == h && s[11..] == mi
  {
  }

  /** A stamp whose five fields are digit runs reads back as those fields. */
  lemma ParseFields(s: string, y: string, mo: string, da: string, h: string, mi: string)
    requires |s| == 13 && s[..4] == y && s[4..6] == mo && s[6..8] == da && s[8] == '_' && s[9..11] == h && s[11..] == mi
    requires AllDigits(y) && AllDigits(mo) && AllDigits(da) && AllDigits(h) && AllDigits(mi)
    requires DigitsValue(mo) >= 1
    ensures ParseTimestamp(s).Some?
    ensures var p := ParseTimestamp(s).value;
            p.year == DigitsValue(y) && p.month == DigitsValue(mo) - 1 && p.day == DigitsValue(da)
            && p.hours == DigitsValue(h) && p.minutes == DigitsValue(mi)
  {
    ParseDate(s, y, mo, da, h, mi);
    ParseTime(s, y, mo, da, h, mi);
  }

  lemma ParseDate(s: string, y: string, mo: string, da: string, h: string, mi: string)
    requires |s| == 13 && s[..4] == y && s[4..6] == mo && s[6..8] == da && s[8] == '_' && s[9..11] == h && s[11..] == mi
    requires AllDigits(y) && AllDigits(mo) && AllDigits(da) && AllDigits(h) && AllDigits(mi)
    requires DigitsValue(mo) >= 1
    ensures ParseTimestamp(s).Some?
    ensures var p := ParseTimestamp(s).value;
            p.year == DigitsValue(y) && p.month == DigitsValue(mo) - 1 && p.day == DigitsValue(da)
  {
  }

  lemma ParseTime(s: string, y: string, mo: string, da: string, h: string, mi: string)
    requires |s| == 13 && s[..4] == y && s[4..6] == mo && s[6..8] == da && s[8] == '_' && s[9..11] == h && s[11..] == mi
    requires AllDigits(y) && AllDigits(mo) && AllDigits(da) && AllDigits(h) && AllDigits(mi)
    requires DigitsValue(mo) >= 1
    ensures ParseTimestamp(s).Some?
    ensures var p := ParseTimestamp(s).value;
            p.hours == DigitsValue(h) && p.minutes == DigitsValue(mi)
  {
  }

  /**
   * For a valid date of a four-digit year the stamp is 13 characters with `_`
   * at index 8, and it reads back as the same date.
   */
  lemma {:induction false} FormatTimestampRoundTrip(d: DateFields)
    requires ValidDate(d) && 1000 <= d.year <= 9999
    ensures |FormatTimestamp(d)| == 13 && FormatTimestamp(d)[8] == '_'
    ensures ParseTimestamp(FormatTimestamp(d)) == Some(d)
  {
    var y := IntToString(d.year);
    var mo, da, h, mi := TwoDigits(d.month + 1), TwoDigits(d.day), TwoDigits(d.hours), TwoDigits(d.minutes);
    assert |y| == 4 && AllDigits(y) && DigitsValue(y) == d.year by {
      NatToStringLength(d.year);
    }
    assert |mo| == 2 && AllDigits(mo) && DigitsValue(mo) == d.month + 1 by {
      TwoDigitsRoundTrip(d.month + 1);
    }
    assert |da| == 2 && AllDigits(da) && DigitsValue(da) == d.day by {
      TwoDigitsRoundTrip(d.day);
    }
    assert |h| == 2 && AllDigits(h) && DigitsValue(h) == d.hours by {
      TwoDigitsRoundTrip(d.hours);
    }
    assert |mi| == 2 && AllDigits(mi) && DigitsValue(mi) == d.minutes by {
      TwoDigitsRoundTrip(d.minutes);
    }
    var s := FormatTimestamp(d);
    assert s == y + mo + da + "_" + h + mi;
    StampSlices(y, mo, da, h, mi);
    ParseFields(s, y, mo, da, h, mi);
  }
}
