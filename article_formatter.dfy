/** The text formatting of `adapters/ArticleFormatter.java`. */
module Formatter {
  import opened JavaLang

  const STRING_INDEX_OUT_OF_BOUNDS: string := "StringIndexOutOfBoundsException"

  // ---------------------------------------------------------------- category names

  /** `s.substring(0, 1).toUpperCase() + s.substring(1)` for a non-empty `s`. */
  function Capitalized(s: string): string
  {
    if s == [] then s else [UpperChar(s[0])] + s[1..]
  }

  /**
   * `formatCategory`: "" for null; otherwise the trimmed id in lower case
   * with its first letter in upper case.
   */
  function FormatCategory(id: Option<string>): (r: string)
    ensures id.None? ==> r == ""
    ensures id.Some? ==> |r| == |Trim(id.value)| && ToLower(r) == ToLower(Trim(id.value))
    ensures r != [] ==> !('a' <= r[0] <= 'z') && !TrimmedAway(r[0]) && !TrimmedAway(r[|r| - 1])
    ensures forall i :: 1 <= i < |r| ==> !('A' <= r[i] <= 'Z')
  {
    match id
    case None => ""
    case Some(s) =>
      var t := Trim(s);
      CapitalizedLower(t);
      Capitalized(ToLower(t))
  }

  /** Capitalising a lowered text keeps its length, its lower-case form and its ends, and leaves only the first letter upper case. */
  lemma CapitalizedLower(t: string)
    requires t == [] || (!TrimmedAway(t[0]) && !TrimmedAway(t[|t| - 1]))
    ensures var r := Capitalized(ToLower(t));
      && |r| == |t| && ToLower(r) == ToLower(t)
      && (r != [] ==> !('a' <= r[0] <= 'z') && !TrimmedAway(r[0]) && !TrimmedAway(r[|r| - 1]))
      && (forall i :: 1 <= i < |r| ==> !('A' <= r[i] <= 'Z'))
  {
    var l := ToLower(t);
    var r := Capitalized(l);
    if t != [] {
      assert r[0] == UpperChar(l[0]) && l[0] == LowerChar(t[0]);
      assert forall i :: 1 <= i < |r| ==> r[i] == l[i];
      LowerOfCapitalized(l);
      LowerOfLower(t);
    }
  }

  /** Lowering forgets the capitalisation of the first letter. */
  lemma LowerOfCapitalized(l: string)
    ensures ToLower(Capitalized(l)) == ToLower(l)
  {
    if l != [] {
      assert ToLower(Capitalized(l))[0] == ToLower(l)[0];
    }
  }

  /** Lowering twice is lowering once. */
  lemma LowerOfLower(t: string)
    ensures ToLower(ToLower(t)) == ToLower(t)
  {
  }

  /** `formatSubcategory` has the same body as `formatCategory`. */
  function FormatSubcategory(id: Option<string>): string
  {
    FormatCategory(id)
  }

  /** Formatting a formatted name changes nothing. */
  lemma FormatCategoryIdempotent(id: Option<string>)
    ensures FormatCategory(Some(FormatCategory(id))) == FormatCategory(id)
  {
    var f := FormatCategory(id);
    TrimOfNonBlankEnds(f);
    var g := FormatCategory(Some(f));
    assert |g| == |f|;
    forall i | 0 <= i < |f| ensures g[i] == f[i] {
      assert LowerChar(g[i]) == LowerChar(f[i]) by {
        assert ToLower(g)[i] == ToLower(f)[i];
      }
    }
  }

  // ---------------------------------------------------------------- trimmed text

  /** The trimmed text, or `fallback` for null or blank text. */
  function TrimmedOr(s: Option<string>, fallback: string): (r: string)
    ensures s.None? || IsBlank(s.value) ==> r == fallback
    ensures s.Some? && !IsBlank(s.value) ==> r == Trim(s.value) && r != []
  {
    if s.None? || IsBlank(s.value) then fallback else Trim(s.value)
  }

  /** `formatAuthorName`: the trimmed name, or "Unknown Author" for null or blank. */
  function FormatAuthorName(name: Option<string>): (r: string)
    ensures r != [] && Trim(r) == r
    ensures name.Some? && !IsBlank(name.value) ==> r == Trim(name.value)
    ensures name.None? || IsBlank(name.value) ==> r == "Unknown Author"
  {
    var r := TrimmedOr(name, "Unknown Author");
    assert Trim(r) == r by {
      if name.None? || IsBlank(name.value) {
        TrimOfNonBlankEnds(r);
      } else {
        TrimIdempotent(name.value);
      }
    }
    r
  }

  /** `formatDate`: the trimmed date text, or "" for null or blank. */
  function FormatDate(date: Option<string>): (r: string)
    ensures Trim(r) == r
    ensures r == [] <==> date.None? || IsBlank(date.value)
    ensures date.Some? && !IsBlank(date.value) ==> r == Trim(date.value)
  {
    var r := TrimmedOr(date, "");
    assert Trim(r) == r by {
      if date.Some? && !IsBlank(date.value) {
        TrimIdempotent(date.value);
      }
    }
    r
  }

  /** Both fall-back formatters are idempotent. */
  lemma TrimmedFormattersIdempotent(s: Option<string>)
    ensures FormatAuthorName(Some(FormatAuthorName(s))) == FormatAuthorName(s)
    ensures FormatDate(Some(FormatDate(s))) == FormatDate(s)
  {
    var a := FormatAuthorName(s);
    assert !IsBlank(a);
    var d := FormatDate(s);
    if d == [] {
      assert IsBlank(d);
    }
  }

  // ---------------------------------------------------------------- reading time

  /**
   * `formatReadingTime`: "Quick read" for no time, "N min read" below an
   * hour, "Hh read" for whole hours and "Hh Mm read" otherwise.
   */
  function FormatReadingTime(minutes: Int32): string
  {
    if minutes <= 0 then "Quick read"
    else if minutes < 60 then IntToDecimal(minutes) + " min read"
    else
      var hours := minutes / 60;
      var remainingMinutes := minutes % 60;
      if remainingMinutes == 0 then IntToDecimal(hours) + "h read"
      else IntToDecimal(hours) + "h " + IntToDecimal(remainingMinutes) + "m read"
  }

  /** A non-empty run of decimal digits, read as a number. */
  function DigitsOf(d: string): Option<nat>
  {
    if d != [] && AllDigits(d) then Some(DigitsValue(d)) else None
  }

  /** Reads a reading-time text back into minutes; None for "Quick read" and for any other text. */
  function ParseReadingTime(s: string): Option<nat>
  {
    if EndsWith(s, " min read") then DigitsOf(s[..|s| - 9])
    else if EndsWith(s, "h read") then
      match DigitsOf(s[..|s| - 6])
      case None => None
      case Some(h) => Some(h * 60)
    else if EndsWith(s, "m read") then HoursAndMinutesValue(s[..|s| - 6])
    else None
  }

  /** "<hours>h <minutes>" read as a number of minutes. */
  function HoursAndMinutesValue(body: string): Option<nat>
  {
    match ParseHoursAndMinutes(body)
    case None => None
    case Some((h, m)) => Some(h * 60 + m)
  }

  /** Reads "<hours>h <minutes>" as the pair of numbers. */
  function ParseHoursAndMinutes(body: string): Option<(nat, nat)>
  {
    var k := IndexOfChar(body, 'h');
    if k < 0 || k + 2 > |body| || body[k + 1] != ' ' then None
    else
      var hours := DigitsOf(body[..k]);
      var minutes := DigitsOf(body[k + 2..]);
      if hours.Some? && minutes.Some? then Some((hours.value, minutes.value)) else None
  }

  /** The first position of `c` in `s`, or -1. */
  function IndexOfChar(s: string, c: char): (k: int)
    ensures -1 <= k < |s|
    ensures k >= 0 ==> s[k] == c && forall i :: 0 <= i < k ==> s[i] != c
    ensures k < 0 ==> forall i :: 0 <= i < |s| ==> s[i] != c
  {
    if s == [] then -1
    else if s[0] == c then 0
    else
      var k := IndexOfChar(s[1..], c);
      if k < 0 then -1 else k + 1
  }

  /** "Quick read" ends in none of the three suffixes the parser looks for. */
  lemma QuickReadParsesToNone()
    ensures ParseReadingTime("Quick read") == None
  {
    var s := "Quick read";
    assert !EndsWith(s, " min read") by { assert s[1..][0] != " min read"[0]; }
    assert !EndsWith(s, "h read") by { assert s[4..][0] != "h read"[0]; }
    assert !EndsWith(s, "m read") by { assert s[4..][0] != "m read"[0]; }
  }

  lemma MinutesRoundTrip(minutes: Int32)
    requires 0 < minutes < 60
    ensures ParseReadingTime(FormatReadingTime(minutes)) == Some(minutes as nat)
  {
    var s := FormatReadingTime(minutes);
    var d := NatToDecimal(minutes);
    assert s == d + " min read";
    assert s[|s| - 9..] == " min read";
    assert s[..|s| - 9] == d;
    DigitsValueOfDecimal(minutes);
  }

  lemma WholeHoursRoundTrip(minutes: Int32)
    requires minutes >= 60 && minutes % 60 == 0
    ensures ParseReadingTime(FormatReadingTime(minutes)) == Some(minutes as nat)
  {
    var h: nat := minutes / 60;
    assert h * 60 == minutes as int;
    assert FormatReadingTime(minutes) == NatToDecimal(h) + "h read";
    ParseWholeHours(NatToDecimal(h));
    DigitsValueOfDecimal(h);
  }

  /** "<digits>h read" reads back as that many hours. */
  lemma ParseWholeHours(dh: string)
    requires dh != [] && AllDigits(dh)
    ensures ParseReadingTime(dh + "h read") == Some(DigitsValue(dh) * 60)
  {
    HoursSuffix(dh);
  }

  /** "<digits>h read" is read by its "h read" branch, and the part before it is the digits. */
  lemma HoursSuffix(dh: string)
    ensures var s := dh + "h read";
      !EndsWith(s, " min read") && EndsWith(s, "h read") && s[..|s| - 6] == dh
  {
    var s := dh + "h read";
    assert s[|s| - 6] == 'h';
    if |s| >= 9 {
      assert s[|s| - 9..][3] == s[|s| - 6];
    }
    assert s[|s| - 6..] == "h read";
  }

  /** The first 'h' of "<digits>h <digits>" is the one after the hours. */
  lemma HourMarkIndex(dh: string, dm: string)
    requires AllDigits(dh)
    ensures IndexOfChar(dh + "h " + dm, 'h') == |dh|
  {
    var body := dh + "h " + dm;
    assert body[|dh|] == 'h';
    assert forall i :: 0 <= i < |dh| ==> body[i] == dh[i] && IsDigit(dh[i]);
  }

  /** A text ending in "m read" is read by its hours-and-minutes part. */
  lemma ParseMinutesSuffix(body: string)
    ensures ParseReadingTime(body + "m read") == HoursAndMinutesValue(body)
  {
    var s := body + "m read";
    assert s[|s| - 6] == 'm';
    assert !EndsWith(s, " min read") by {
      if |s| >= 9 { assert s[|s| - 9..][3] == s[|s| - 6]; }
    }
    assert !EndsWith(s, "h read") by {
      assert s[|s| - 6..][0] == s[|s| - 6];
    }
    assert s[|s| - 6..] == "m read";
    assert s[..|s| - 6] == body;
  }

  /** "<hours>h <minutes>" reads back as the two numbers. */
  lemma ParseHoursAndMinutesOf(dh: string, dm: string)
    requires dh != [] && AllDigits(dh) && dm != [] && AllDigits(dm)
    ensures ParseHoursAndMinutes(dh + "h " + dm) == Some((DigitsValue(dh), DigitsValue(dm)))
  {
    var body := dh + "h " + dm;
    HourMarkIndex(dh, dm);
    assert |body| == |dh| + 2 + |dm|;
    assert body[|dh| + 1] == ' ';
    assert body[..|dh|] == dh;
    assert body[|dh| + 2..] == dm;
    assert DigitsOf(dh) == Some(DigitsValue(dh));
    assert DigitsOf(dm) == Some(DigitsValue(dm));
  }

  lemma HoursAndMinutesRoundTrip(minutes: Int32)
    requires minutes >= 60 && minutes % 60 != 0
    ensures ParseReadingTime(FormatReadingTime(minutes)) == Some(minutes as nat)
  {
    var h: nat := minutes / 60;
    var m: nat := minutes % 60;
    assert h * 60 + m == minutes as int;
    ParseHoursThenMinutes(NatToDecimal(h), NatToDecimal(m), FormatReadingTime(minutes));
    DigitsValueOfDecimal(h);
    DigitsValueOfDecimal(m);
  }

  /** "<digits>h <digits>m read" reads back as those hours and minutes. */
  lemma ParseHoursThenMinutes(dh: string, dm: string, s: string)
    requires dh != [] && AllDigits(dh) && dm != [] && AllDigits(dm)
    requires s == dh + "h " + dm + "m read"
    ensures ParseReadingTime(s) == Some(DigitsValue(dh) * 60 + DigitsValue(dm))
  {
    var body := dh + "h " + dm;
    ParseHoursAndMinutesOf(dh, dm);
    ParseMinutesSuffix(body);
    assert s == body + "m read";
  }

  /** Positive reading times read back exactly, and "Quick read" reads back as no time. */
  lemma ReadingTimeRoundTrip(minutes: Int32)
    ensures minutes > 0 ==> ParseReadingTime(FormatReadingTime(minutes)) == Some(minutes as nat)
    ensures minutes <= 0 ==> ParseReadingTime(FormatReadingTime(minutes)) == None
  {
    if minutes <= 0 {
      QuickReadParsesToNone();
    } else if minutes < 60 {
      MinutesRoundTrip(minutes);
    } else if minutes % 60 == 0 {
      WholeHoursRoundTrip(minutes);
    } else {
      HoursAndMinutesRoundTrip(minutes);
    }
  }

  // ---------------------------------------------------------------- truncation

  /**
   * The cut point `formatContentPreview` searches for: the largest `e <= max`
   * whose preceding character is whitespace, or 0 when there is none.
   */
  function LastWordBreak(c: string, max: nat): (e: nat)
    requires max <= |c|
    ensures e <= max
    ensures e > 0 ==> IsWhitespace(c[e - 1])
    ensures forall i :: e <= i < max ==> !IsWhitespace(c[i])
  {
    if max == 0 || IsWhitespace(c[max - 1]) then max else LastWordBreak(c, max - 1)
  }

  /** The cut point is the only position with those three properties. */
  lemma LastWordBreakUnique(c: string, max: nat, x: int)
    requires max <= |c| && 0 <= x <= max
    requires x > 0 ==> IsWhitespace(c[x - 1])
    requires forall i :: 0 <= i && x <= i < max ==> !IsWhitespace(c[i])
    ensures x == LastWordBreak(c, max)
  {
  }

  /**
   * The preview of a text longer than `maxLength`: cut at the last word
   * break within the limit (at the limit when there is none), trimmed, with
   * "..." appended. A negative limit makes `substring` throw.
   */
  function PreviewOfLong(c: string, maxLength: Int32): (r: Result<string>)
    requires |c| > maxLength
    ensures r.Thrown? <==> maxLength < 0
    ensures r.Ok? ==> |r.value| <= maxLength + 3 && EndsWith(r.value, "...")
    ensures maxLength == 0 ==> r == Ok("...")
    ensures r.Ok? ==>
      var e := LastWordBreak(c, maxLength);
      r.value == Trim(c[..if e == 0 then maxLength else e]) + "..."
  {
    if maxLength < 0 then Thrown(STRING_INDEX_OUT_OF_BOUNDS)
    else
      var e := LastWordBreak(c, maxLength);
      var endIndex := if e == 0 then maxLength else e;
      var t := Trim(c[..endIndex]) + "...";
      assert t[|t| - 3..] == "...";
      Ok(t)
  }

  /** `formatContentPreview`: "" for null, the text itself when it fits, its preview otherwise. */
  method FormatContentPreview(content: Option<string>, maxLength: Int32) returns (r: Result<string>)
    ensures content.None? ==> r == Ok("")
    ensures content.Some? && |content.value| <= maxLength ==> r == Ok(content.value)
    ensures content.Some? && |content.value| > maxLength ==> r == PreviewOfLong(content.value, maxLength)
  {
    if content.None? {
      return Ok("");
    }
    var c := content.value;
    if |c| <= maxLength {
      return Ok(c);
    }
    var endIndex: int := maxLength;
    while endIndex > 0 && !IsWhitespace(c[endIndex - 1])
      invariant endIndex <= maxLength
      invariant maxLength >= 0 ==> 0 <= endIndex
      invariant forall i :: 0 <= i && endIndex <= i < maxLength ==> !IsWhitespace(c[i])
      decreases endIndex
    {
      endIndex := endIndex - 1;
    }
    if maxLength >= 0 {
      ghost var e := LastWordBreak(c, maxLength);
      LastWordBreakUnique(c, maxLength, endIndex);
    }
    if endIndex == 0 {
      endIndex := maxLength;
    }
    if endIndex < 0 {
      return Thrown(STRING_INDEX_OUT_OF_BOUNDS);
    }
    return Ok(Trim(c[..endIndex]) + "...");
  }

  /**
   * `formatTitle`: "" for null, the title when it fits, otherwise the first
   * `maxLength - 3` characters (an `int` difference) trimmed, plus "...".
   */
  function FormatTitle(title: Option<string>, maxLength: Int32): (r: Result<string>)
    ensures title.None? ==> r == Ok("")
    ensures title.Some? && |title.value| <= maxLength ==> r == Ok(title.value)
    ensures title.Some? && |title.value| > maxLength && 0 <= maxLength < 3 ==> r.Thrown?
    ensures title.Some? && maxLength < 0 && (INT_MIN + 3 <= maxLength || |title.value| < INT_MAX - 2) ==> r.Thrown?
    ensures title.Some? && |title.value| > maxLength >= 3 ==>
      r.Ok? && |r.value| <= maxLength && EndsWith(r.value, "...") && r.value[..|r.value| - 3] == Trim(title.value[..maxLength - 3])
  {
    match title
    case None => Ok("")
    case Some(t) =>
      if |t| <= maxLength then Ok(t)
      else
        var endIndex := Wrap32(maxLength - 3);
        if endIndex < 0 || endIndex > |t| then Thrown(STRING_INDEX_OUT_OF_BOUNDS)
        else
          Ok(Ellipsized(t, endIndex))
  }

  /**
   * At the very bottom of the `int` range `maxLength - 3` wraps around to a
   * large positive index, so a title of `Integer.MAX_VALUE` characters is
   * cut rather than rejected.
   */
  lemma FormatTitleWrapsAtIntMin(t: string)
    requires |t| == INT_MAX
    ensures FormatTitle(Some(t), INT_MIN) == Ok(Ellipsized(t, INT_MAX - 2))
  {
  }

  /** The first `n` characters of `t`, trimmed, followed by "...". */
  function Ellipsized(t: string, n: nat): (r: string)
    requires n <= |t|
    ensures |r| <= n + 3 && EndsWith(r, "...") && r[..|r| - 3] == Trim(t[..n])
  {
    var r := Trim(t[..n]) + "...";
    assert r[|r| - 3..] == "...";
    r
  }
}
