/**
 * `ImageFrame.convert_date_format`: rewrites OCR text that reads as a
 * date in one of two fixed layouts into a compact sortable form, and
 * otherwise gives the text back with its surrounding whitespace removed.
 *
 *   layout A  `dd.mm.yy`             becomes `20yymmdd`
 *   layout B  `dd-mm-yyyy hh:mm:ss`  becomes `yyyymmdd-hhmmss`
 *
 * Recognition is by position only: literal separators at fixed indices
 * and digits in fixed slices. No calendar check is made.
 */
module DateFormat {
  import opened PyStr

  /** Layout A, `dd.mm.yy`, checked on already stripped text. */
  predicate IsShortDate(s: string) {
    && |s| == 8
    && s[2] == '.' && s[5] == '.'
    && AllDigits(s[..2]) && AllDigits(s[3..5]) && AllDigits(s[6..])
  }

  /** Layout B, `dd-mm-yyyy hh:mm:ss`, checked on already stripped text. */
  predicate IsLongDateTime(s: string) {
    && |s| == 19
    && s[2] == '-' && s[5] == '-' && s[10] == ' '
    && s[13] == ':' && s[16] == ':'
    && AllDigits(s[..2]) && AllDigits(s[3..5]) && AllDigits(s[6..10])
    && AllDigits(s[11..13]) && AllDigits(s[14..16]) && AllDigits(s[17..])
  }

  /** In layout A `split(".")` yields exactly day, month and year. */
  lemma ShortDateSplit(s: string)
    requires IsShortDate(s)
    ensures Split(s, '.') == [s[..2], s[3..5], s[6..]]
  {
    var parts := [s[..2], s[3..5], s[6..]];
    forall k | 0 <= k < 3
      ensures '.' !in parts[k]
    {
      assert AllDigits(parts[k]);
    }
    assert Join(parts[1..][1..], '.') == s[6..] by { assert parts[1..][1..] == [s[6..]]; }
    assert Join(parts[1..], '.') == s[3..5] + "." + s[6..];
    assert s == s[..2] + "." + (s[3..5] + "." + s[6..]);
    SplitJoin(parts, '.');
  }

  /**
   * The layout A rewrite, `day, month, year = s.split(".")` followed by
   * `f"20{year}{month}{day}"`: the fixed slices in reverse order.
   */
  function RewriteShortDate(s: string): (r: string)
    requires IsShortDate(s)
    ensures r == "20" + s[6..8] + s[3..5] + s[0..2]
  {
    ShortDateSplit(s);
    var parts := Split(s, '.');
    var day, month, year := parts[0], parts[1], parts[2];
    "20" + year + month + day
  }

  /** `convert_date_format(date_str)`. */
  function ConvertDateFormat(text: string): (r: string)
    ensures |r| <= |text|
  {
    var s := Strip(text);
    if IsShortDate(s) then
      RewriteShortDate(s)
    else if IsLongDateTime(s) then
      var day, month, year := s[..2], s[3..5], s[6..10];
      var hour, minute, second := s[11..13], s[14..16], s[17..19];
      year + month + day + "-" + hour + minute + second
    else
      s
  }

  /** Layout A: the two-digit year gets the fixed century `20` in front. */
  lemma ConvertShortDate(text: string)
    requires IsShortDate(Strip(text))
    ensures var s := Strip(text);
      ConvertDateFormat(text) == "20" + s[6..8] + s[3..5] + s[0..2]
  {
  }

  /** Layout B: date reordered to year-month-day, time kept, one dash between. */
  lemma ConvertLongDateTime(text: string)
    requires IsLongDateTime(Strip(text))
    ensures var s := Strip(text);
      && ConvertDateFormat(text)
         == s[6..10] + s[3..5] + s[0..2] + "-" + s[11..13] + s[14..16] + s[17..19]
      && |ConvertDateFormat(text)| == 15
  {
    LayoutsDisjoint(Strip(text));
  }

  /** A stripped text is never of both layouts, so their order does not matter. */
  lemma LayoutsDisjoint(s: string)
    ensures !(IsShortDate(s) && IsLongDateTime(s))
  {
  }

  /** Anything else comes back stripped and otherwise unchanged. */
  lemma ConvertFallback(text: string)
    requires !IsShortDate(Strip(text)) && !IsLongDateTime(Strip(text))
    ensures ConvertDateFormat(text) == Strip(text)
  {
  }

  /** The layout A rewrite of a layout A text is eight digits. */
  lemma ShortDateShape(s: string, r: string)
    requires IsShortDate(s)
    requires r == "20" + s[6..8] + s[3..5] + s[0..2]
    ensures |r| == 8 && AllDigits(r)
  {
    assert IsDigit("20"[0]) && IsDigit("20"[1]);
    assert s[6..8] == s[6..] && s[0..2] == s[..2];
    AllDigitsConcat("20", s[6..8]);
    AllDigitsConcat("20" + s[6..8], s[3..5]);
    AllDigitsConcat("20" + s[6..8] + s[3..5], s[0..2]);
  }

  /** The output of layout A is eight digits. */
  lemma ShortDateOutput(text: string)
    requires IsShortDate(Strip(text))
    ensures AllDigits(ConvertDateFormat(text)) && |ConvertDateFormat(text)| == 8
  {
    ConvertShortDate(text);
    ShortDateShape(Strip(text), ConvertDateFormat(text));
  }

  /** The layout B rewrite of a layout B text is digits around one dash. */
  lemma LongDateTimeShape(s: string, r: string)
    requires IsLongDateTime(s)
    requires r == s[6..10] + s[3..5] + s[0..2] + "-" + s[11..13] + s[14..16] + s[17..19]
    ensures |r| == 15 && r[8] == '-' && AllDigits(r[..8]) && AllDigits(r[9..])
  {
    assert s[0..2] == s[..2] && s[17..19] == s[17..];
    var date := s[6..10] + s[3..5] + s[0..2];
    var time := s[11..13] + s[14..16] + s[17..19];
    AllDigitsConcat(s[6..10], s[3..5]);
    AllDigitsConcat(s[6..10] + s[3..5], s[0..2]);
    AllDigitsConcat(s[11..13], s[14..16]);
    AllDigitsConcat(s[11..13] + s[14..16], s[17..19]);
    assert r == date + "-" + time;
    assert r[..8] == date && r[9..] == time;
  }

  /** The output of layout B: fifteen characters, digits around one dash. */
  lemma LongDateTimeOutput(text: string)
    requires IsLongDateTime(Strip(text))
    ensures var r := ConvertDateFormat(text);
      && |r| == 15 && r[8] == '-'
      && AllDigits(r[..8]) && AllDigits(r[9..])
  {
    ConvertLongDateTime(text);
    LongDateTimeShape(Strip(text), ConvertDateFormat(text));
  }

  /** Eight digits are stripped and in neither layout. */
  lemma ShortOutputInNoLayout(r: string)
    requires |r| == 8 && AllDigits(r)
    ensures IsStripped(r) && !IsShortDate(r) && !IsLongDateTime(r)
  {
    assert IsDigit(r[2]);
    DigitIsNotSpace(r[0]);
    DigitIsNotSpace(r[7]);
  }

  /** Eight digits, a dash and six digits are stripped and in neither layout. */
  lemma LongOutputInNoLayout(r: string)
    requires |r| == 15 && r[8] == '-' && AllDigits(r[..8]) && AllDigits(r[9..])
    ensures IsStripped(r) && !IsShortDate(r) && !IsLongDateTime(r)
  {
    assert r[0] == r[..8][0] && r[14] == r[9..][5];
    DigitIsNotSpace(r[0]);
    DigitIsNotSpace(r[14]);
  }

  /** A stripped text in neither layout is a fixed point of the conversion. */
  lemma ConvertFixedPoint(r: string)
    requires IsStripped(r) && !IsShortDate(r) && !IsLongDateTime(r)
    ensures ConvertDateFormat(r) == r
  {
    StripOfStripped(r);
  }

  /** Converting a second time changes nothing. */
  lemma ConvertIdempotent(text: string)
    ensures ConvertDateFormat(ConvertDateFormat(text)) == ConvertDateFormat(text)
  {
    var s := Strip(text);
    var r := ConvertDateFormat(text);
    if IsShortDate(s) {
      ShortDateOutput(text);
      ShortOutputInNoLayout(r);
      ConvertFixedPoint(r);
    } else if IsLongDateTime(s) {
      LongDateTimeOutput(text);
      LongOutputInNoLayout(r);
      ConvertFixedPoint(r);
    } else {
      StripIdempotent(text);
      ConvertFixedPoint(s);
    }
  }

  /** Day, month and year joined by dots form a layout A text. */
  lemma ShortDateFromParts(s: string, day: string, month: string, year: string)
    requires |day| == 2 && |month| == 2 && |year| == 2
    requires AllDigits(day) && AllDigits(month) && AllDigits(year)
    requires s == day + "." + month + "." + year
    ensures IsShortDate(s)
    ensures s[0..2] == day && s[3..5] == month && s[6..8] == year
  {
    assert s[..2] == day && s[3..5] == month && s[6..] == year;
  }

  /** A layout A text assembled from its day, month and year. */
  lemma ConvertShortDateParts(text: string, day: string, month: string, year: string)
    requires |day| == 2 && |month| == 2 && |year| == 2
    requires AllDigits(day) && AllDigits(month) && AllDigits(year)
    requires Strip(text) == day + "." + month + "." + year
    ensures ConvertDateFormat(text) == "20" + year + month + day
  {
    ShortDateFromParts(Strip(text), day, month, year);
    ConvertShortDate(text);
  }

  /** The six fields joined by the layout B separators form a layout B text. */
  lemma LongDateTimeFromParts(s: string, day: string, month: string, year: string,
                              hour: string, minute: string, second: string)
    requires |day| == 2 && |month| == 2 && |year| == 4
    requires |hour| == 2 && |minute| == 2 && |second| == 2
    requires AllDigits(day) && AllDigits(month) && AllDigits(year)
    requires AllDigits(hour) && AllDigits(minute) && AllDigits(second)
    requires s == day + "-" + month + "-" + year + " " + hour + ":" + minute + ":" + second
    ensures IsLongDateTime(s) && !IsShortDate(s)
    ensures s[0..2] == day && s[3..5] == month && s[6..10] == year
    ensures s[11..13] == hour && s[14..16] == minute && s[17..19] == second
  {
    assert s[..2] == day && s[3..5] == month && s[6..10] == year;
    assert s[11..13] == hour && s[14..16] == minute && s[17..] == second;
  }

  /** A layout B text assembled from its six fields. */
  lemma ConvertLongDateTimeParts(text: string, day: string, month: string, year: string,
                                 hour: string, minute: string, second: string)
    requires |day| == 2 && |month| == 2 && |year| == 4
    requires |hour| == 2 && |minute| == 2 && |second| == 2
    requires AllDigits(day) && AllDigits(month) && AllDigits(year)
    requires AllDigits(hour) && AllDigits(minute) && AllDigits(second)
    requires Strip(text) == day + "-" + month + "-" + year + " " + hour + ":" + minute + ":" + second
    ensures ConvertDateFormat(text) == year + month + day + "-" + hour + minute + second
  {
    LongDateTimeFromParts(Strip(text), day, month, year, hour, minute, second);
    ConvertLongDateTime(text);
  }

  // The examples write each text as the concatenation of its fields:
  // `"26" + "." + "10" + "." + "24"` is the text `26.10.24`. The verifier
  // handles such a concatenation far more cheaply than one long literal,
  // and the texts are taken as parameters so that the conversion is not
  // unfolded on a literal argument.

  /** Any text that strips to `26.10.24`, padded or not, becomes `20241026`. */
  lemma ExampleShortDate(text: string)
    requires Strip(text) == "26" + "." + "10" + "." + "24"
    ensures ConvertDateFormat(text) == "20" + "24" + "10" + "26"
  {
    ShortDateFromParts(Strip(text), "26", "10", "24");
    ConvertShortDate(text);
  }

  /** Stripping comes before matching: the padded text strips to a layout A date. */
  lemma ExamplePaddedShortDate(text: string)
    requires text == "  " + ("26" + "." + "10" + "." + "24") + "  "
    ensures Strip(text) == "26" + "." + "10" + "." + "24"
  {
    StripSurrounded(text, "  ", "26" + "." + "10" + "." + "24", "  ");
  }

  /** The padded text `"  26.10.24  "` becomes `20241026` as well. */
  lemma ExamplePaddedConverts(text: string)
    requires text == "  " + ("26" + "." + "10" + "." + "24") + "  "
    ensures ConvertDateFormat(text) == "20" + "24" + "10" + "26"
  {
    ExamplePaddedShortDate(text);
    ExampleShortDate(text);
  }

  lemma ExampleLongDateTime(text: string)
    requires Strip(text) == "26" + "-" + "10" + "-" + "2024" + " " + "14" + ":" + "30" + ":" + "05"
    ensures ConvertDateFormat(text) == "2024" + "10" + "26" + "-" + "14" + "30" + "05"
  {
    LongDateTimeFromParts(Strip(text), "26", "10", "2024", "14", "30", "05");
    ConvertLongDateTime(text);
  }

  /** Month 13 passes: recognition is structural only. */
  lemma ExampleNoCalendarCheck(text: string)
    requires Strip(text) == "01" + "." + "13" + "." + "24"
    ensures ConvertDateFormat(text) == "20" + "24" + "13" + "01"
  {
    ShortDateFromParts(Strip(text), "01", "13", "24");
    ConvertShortDate(text);
  }

  lemma ExampleFallback(text: string)
    requires text == "hello world"
    ensures ConvertDateFormat(text) == "hello world"
  {
    StripOfStripped(text);
    ConvertFallback(text);
  }
}
