/** The per-chain date decoders of scraper.js. Each turns a flyer URL, or the `code` query
    value of one, into a validity window in milliseconds. The regular expressions of the
    source are written out as position predicates and hand-coded digit-run matchers. */
module Decoders {
  import opened Text
  import opened EcmaTime
  import opened Records

  const Week: int := 7 * MsPerDay

  /** `d.setUTCHours(0, 0, 0, 0)`: the start of the UTC day that holds `now`. */
  function UtcMidnight(now: int): (t: int)
    ensures t % MsPerDay == 0
    ensures t <= now < t + MsPerDay
  {
    now / MsPerDay * MsPerDay
  }

  /** The "today at UTC midnight plus seven days" fallback of DM and Eurospin. */
  function WeekFromToday(now: int): (w: Window)
    ensures w.validFrom % MsPerDay == 0 && w.validFrom <= now < w.validFrom + MsPerDay
    ensures w.validTo == w.validFrom + Week
  {
    var today := UtcMidnight(now);
    Window(today, today + Week)
  }

  // ---------------------------------------------------------------------------------
  // SPAR / Interspar: /\/(\d{6})[-/]/ and parseDateFromSegment

  /** The SPAR pattern `/\/(\d{6})[-/]/` matches at position `i`. */
  predicate SparSegmentAt(url: string, i: int)
  {
    0 <= i && i + 8 <= |url| && url[i] == '/' && AllDigits(url[i + 1..i + 7]) && (url[i + 7] == '-' || url[i + 7] == '/')
  }

  /** The leftmost position where the SPAR pattern matches, as a regular-expression search
      finds it. */
  function FirstSparSegment(url: string): (r: Option<nat>)
    ensures r.Some? ==> r.value < |url| && SparSegmentAt(url, r.value)
    ensures r.Some? ==> forall j :: 0 <= j < r.value ==> !SparSegmentAt(url, j)
    ensures r.None? ==> forall j :: 0 <= j < |url| ==> !SparSegmentAt(url, j)
  {
    var at := (i: nat) => SparSegmentAt(url, i);
    assert forall i: nat :: at(i) == SparSegmentAt(url, i);
    FirstIndex(0, |url|, at)
  }

  /** parseDateFromSegment: a `YYMMDD` segment read as UTC midnight of 20YY-MM-DD, MM 1-based. */
  function ParseDateFromSegment(seg: string): (t: int)
    requires |seg| == 6 && AllDigits(seg)
    ensures t % MsPerDay == 0
    ensures var yy, mm, dd := DigitsValue(seg[..2]), DigitsValue(seg[2..4]), DigitsValue(seg[4..]);
      1 <= mm <= 12 ==> t == CalendarDay(2000 + yy, mm - 1, dd) * MsPerDay
  {
    var year := 2000 + DigitsValue(seg[..2]);
    var month := DigitsValue(seg[2..4]) - 1;
    var day := DigitsValue(seg[4..]);
    DateUtcIsCalendarDay(year, month, day);
    DateUtc(year, month, day)
  }

  /** The SPAR window of a URL: None (the URL is skipped) when no 6-digit segment matches,
      otherwise the first segment's date and seven days later. */
  function SparWindow(url: string): (w: Option<Window>)
    ensures w.None? <==> forall i :: 0 <= i < |url| ==> !SparSegmentAt(url, i)
    ensures w.Some? ==> w.value.validFrom % MsPerDay == 0 && w.value.validTo == w.value.validFrom + Week
  {
    match FirstSparSegment(url)
    case None => None
    case Some(i) =>
      var validFrom := ParseDateFromSegment(url[i + 1..i + 7]);
      Some(Window(validFrom, validFrom + Week))
  }

  /** The chain tag: Interspar exactly when the URL contains "interspar". */
  function SparChain(url: string): (c: Chain)
    ensures c == Interspar || c == Spar
  {
    if Contains(url, "interspar") then Interspar else Spar
  }

  /** The first segment decides: a URL `pre + "/" + seg + sep + post` whose `pre` holds no
      earlier match gets the window of `seg`. */
  lemma SparWindowOfFirstSegment(pre: string, seg: string, sep: char, post: string)
    requires |seg| == 6 && AllDigits(seg) && (sep == '-' || sep == '/')
    requires forall j :: 0 <= j < |pre| ==> !SparSegmentAt(pre + "/" + seg + [sep] + post, j)
    ensures SparWindow(pre + "/" + seg + [sep] + post)
         == Some(Window(ParseDateFromSegment(seg), ParseDateFromSegment(seg) + Week))
  {
    var url := pre + "/" + seg + [sep] + post;
    var i := |pre|;
    assert url[i] == '/';
    assert url[i + 1..i + 7] == seg;
    assert url[i + 7] == sep;
    assert SparSegmentAt(url, i);
    var r := FirstSparSegment(url);
    assert r.Some? && r.value == i;
  }

  /** No SPAR match starts inside a digit-free text that does not end with '/': a match
      needs a '/' immediately followed by a digit. */
  lemma NoSparSegmentWithin(a: string, b: string)
    requires forall k :: 0 <= k < |a| ==> !IsDigit(a[k])
    requires a == [] || a[|a| - 1] != '/'
    ensures forall j :: 0 <= j < |a| ==> !SparSegmentAt(a + b, j)
  {
    forall j | 0 <= j < |a|
      ensures !SparSegmentAt(a + b, j)
    {
      if j + 1 < |a| {
        assert (a + b)[j + 1] == a[j + 1];
      }
    }
  }

  // ---------------------------------------------------------------------------------
  // DM: /_(\d{1,2})_(\d{1,2})-(\d{1,2})_(\d{1,2})_(\d{4})-web$/

  /** Length of the run of digits that ends `s`. */
  function TrailingDigits(s: string): (n: nat)
    ensures n <= |s|
    ensures AllDigits(s[|s| - n..])
    ensures n < |s| ==> !IsDigit(s[|s| - n - 1])
  {
    if s == [] || !IsDigit(s[|s| - 1]) then 0
    else
      var n := TrailingDigits(s[..|s| - 1]);
      assert s[|s| - (n + 1)..] == s[..|s| - 1][|s| - 1 - n..] + [s[|s| - 1]];
      n + 1
  }

  lemma {:induction false} TrailingDigitsOfRun(rest: string, sep: char, group: string)
    requires !IsDigit(sep) && AllDigits(group)
    ensures TrailingDigits(rest + [sep] + group) == |group|
    decreases |group|
  {
    var s := rest + [sep] + group;
    if group == [] {
      assert s[|s| - 1] == sep;
    } else {
      var g' := group[..|group| - 1];
      assert s[..|s| - 1] == rest + [sep] + g';
      TrailingDigitsOfRun(rest, sep, g');
    }
  }

  datatype Split = Split(rest: string, group: string)

  /** Matches `sep` followed by between minLen and maxLen digits at the very end of `s`.
      Because `sep` is not a digit the group is the whole trailing digit run, so the
      split is the only one possible. */
  function GroupAtEnd(s: string, sep: char, minLen: nat, maxLen: nat): (r: Option<Split>)
    ensures r.Some? ==> s == r.value.rest + [sep] + r.value.group
    ensures r.Some? ==> AllDigits(r.value.group) && minLen <= |r.value.group| <= maxLen
  {
    var n := TrailingDigits(s);
    if minLen <= n <= maxLen && n < |s| && s[|s| - n - 1] == sep then
      assert s == s[..|s| - n - 1] + [sep] + s[|s| - n..];
      Some(Split(s[..|s| - n - 1], s[|s| - n..]))
    else None
  }

  lemma GroupAtEndFinds(rest: string, sep: char, group: string, minLen: nat, maxLen: nat)
    requires !IsDigit(sep) && AllDigits(group) && minLen <= |group| <= maxLen
    ensures GroupAtEnd(rest + [sep] + group, sep, minLen, maxLen) == Some(Split(rest, group))
  {
    var s := rest + [sep] + group;
    TrailingDigitsOfRun(rest, sep, group);
    assert s[|s| - |group| - 1] == sep;
    assert s[..|s| - |group| - 1] == rest;
    assert s[|s| - |group|..] == group;
  }

  /** The five captures of the DM slug, as digit strings. */
  datatype DmSlug = DmSlug(d1: string, m1: string, d2: string, m2: string, year: string) {
    predicate WellFormed()
    {
      1 <= |d1| <= 2 && AllDigits(d1) && 1 <= |m1| <= 2 && AllDigits(m1) &&
      1 <= |d2| <= 2 && AllDigits(d2) && 1 <= |m2| <= 2 && AllDigits(m2) &&
      |year| == 4 && AllDigits(year)
    }

  }

  /** A URL that ends with the text the DM pattern matches: `before` followed by
      `_d1_m1-d2_m2_year-web`. */
  function DmSlugUrl(before: string, slug: DmSlug): string
  {
    before + "_" + slug.d1 + "_" + slug.m1 + "-" + slug.d2 + "_" + slug.m2 + "_" + slug.year + "-web"
  }

  datatype DmMatch = DmMatch(before: string, slug: DmSlug)

  /** The DM pattern, read from the end of the URL: "-web", then each separator and digit
      group in turn, right to left. */
  function ParseDmSlug(url: string): (r: Option<DmMatch>)
    ensures r.Some? ==> r.value.slug.WellFormed() && url == DmSlugUrl(r.value.before, r.value.slug)
  {
    if !EndsWith(url, "-web") then None
    else
      var s := url[..|url| - 4];
      assert url == s + "-web" by {
        assert url == url[..|url| - 4] + url[|url| - 4..];
      }
      match GroupAtEnd(s, '_', 4, 4)
      case None => None
      case Some(y) =>
        match GroupAtEnd(y.rest, '_', 1, 2)
        case None => None
        case Some(m2) =>
          match GroupAtEnd(m2.rest, '-', 1, 2)
          case None => None
          case Some(d2) =>
            match GroupAtEnd(d2.rest, '_', 1, 2)
            case None => None
            case Some(m1) =>
              match GroupAtEnd(m1.rest, '_', 1, 2)
              case None => None
              case Some(d1) =>
                Some(DmMatch(d1.rest, DmSlug(d1.group, m1.group, d2.group, m2.group, y.group)))
  }

  /** Every URL that ends with a well-formed DM slug is recognised, with its captures. */
  lemma ParseDmSlugFinds(before: string, slug: DmSlug)
    requires slug.WellFormed()
    ensures ParseDmSlug(DmSlugUrl(before, slug)) == Some(DmMatch(before, slug))
  {
    var url := DmSlugUrl(before, slug);
    var a := before + "_" + slug.d1;
    var b := a + "_" + slug.m1;
    var c := b + "-" + slug.d2;
    var d := c + "_" + slug.m2;
    var e := d + "_" + slug.year;
    assert url == e + "-web";
    assert url[..|url| - 4] == e;
    GroupAtEndFinds(d, '_', slug.year, 4, 4);
    GroupAtEndFinds(c, '_', slug.m2, 1, 2);
    GroupAtEndFinds(b, '-', slug.d2, 1, 2);
    GroupAtEndFinds(a, '_', slug.m1, 1, 2);
    GroupAtEndFinds(before, '_', slug.d1, 1, 2);
  }

  /** The window a DM slug names: validFrom = UTC(year, m1 - 1, d1) and
      validTo = UTC(year, m2 - 1, d2), months 1-based in the URL and rolled over by
      Date.UTC when out of range. */
  function SlugWindow(slug: DmSlug): (w: Window)
    requires slug.WellFormed()
    ensures w.validFrom % MsPerDay == 0 && w.validTo % MsPerDay == 0
    ensures var y, m1, d1 := DigitsValue(slug.year), DigitsValue(slug.m1), DigitsValue(slug.d1);
      IsCalendarDate(y, m1 - 1, d1) && y >= 100 ==> w.validFrom == CalendarDay(y, m1 - 1, d1) * MsPerDay
    ensures var y, m2, d2 := DigitsValue(slug.year), DigitsValue(slug.m2), DigitsValue(slug.d2);
      IsCalendarDate(y, m2 - 1, d2) && y >= 100 ==> w.validTo == CalendarDay(y, m2 - 1, d2) * MsPerDay
  {
    var year := DigitsValue(slug.year);
    DateUtcIsCalendarDay(year, DigitsValue(slug.m1) - 1, DigitsValue(slug.d1));
    DateUtcIsCalendarDay(year, DigitsValue(slug.m2) - 1, DigitsValue(slug.d2));
    Window(DateUtc(year, DigitsValue(slug.m1) - 1, DigitsValue(slug.d1)),
           DateUtc(year, DigitsValue(slug.m2) - 1, DigitsValue(slug.d2)))
  }

  /** The DM window: the slug's window, or the week-from-today fallback when the URL does
      not end with a DM slug. Both ends are always UTC midnights. */
  function DmWindow(url: string, now: int): (w: Window)
    ensures w.validFrom % MsPerDay == 0 && w.validTo % MsPerDay == 0
  {
    match ParseDmSlug(url)
    case Some(m) => SlugWindow(m.slug)
    case None => WeekFromToday(now)
  }

  /** A URL ending in `_d1_m1-d2_m2_year-web` gets the window of that slug, whatever
      comes before it. */
  lemma DmWindowOfSlug(before: string, slug: DmSlug, now: int)
    requires slug.WellFormed()
    ensures DmWindow(DmSlugUrl(before, slug), now) == SlugWindow(slug)
  {
    ParseDmSlugFinds(before, slug);
  }

  /** A URL that does not end with a well-formed DM slug gets the fallback window. */
  lemma DmWindowFallback(url: string, now: int)
    requires forall before: string, slug: DmSlug :: slug.WellFormed() ==> url != DmSlugUrl(before, slug)
    ensures DmWindow(url, now) == WeekFromToday(now)
  {
    match ParseDmSlug(url)
    case None =>
    case Some(m) =>
      assert false;
  }

  /** The two DM dates are decoded independently: a slug whose second day is earlier
      than its first in the same month gives a window that ends before it starts. */
  lemma DmWindowMayBeReversed(before: string, slug: DmSlug, now: int)
    requires slug.WellFormed() && slug.m1 == slug.m2 && DigitsValue(slug.d2) < DigitsValue(slug.d1)
    ensures var w := DmWindow(DmSlugUrl(before, slug), now);
      w.validTo < w.validFrom
  {
    DmWindowOfSlug(before, slug, now);
    DateUtcLaterDay(DigitsValue(slug.year), DigitsValue(slug.m1) - 1, DigitsValue(slug.d2), DigitsValue(slug.d1));
  }

  // ---------------------------------------------------------------------------------
  // Lidl: /vrijedi-od-(\d{2})-(\d{2})-do-(\d{2})-(\d{2})/

  /** The 25 characters the Lidl pattern matches. */
  function LidlRangeText(d1: string, m1: string, d2: string, m2: string): string
  {
    "vrijedi-od-" + (d1 + ("-" + (m1 + ("-do-" + (d2 + ("-" + m2))))))
  }

  /** A 25-character text the Lidl pattern matches. */
  predicate IsLidlRange(t: string)
  {
    |t| == 25 && t[..11] == "vrijedi-od-" &&
    AllDigits(t[11..13]) && t[13] == '-' && AllDigits(t[14..16]) &&
    t[16..20] == "-do-" &&
    AllDigits(t[20..22]) && t[22] == '-' && AllDigits(t[23..25])
  }

  /** The Lidl pattern matches at position `i`. */
  predicate LidlRangeAt(url: string, i: int)
  {
    0 <= i && i + 25 <= |url| && IsLidlRange(url[i..i + 25])
  }

  /** The leftmost position where the Lidl pattern matches. */
  function FirstLidlRange(url: string): (r: Option<nat>)
    ensures r.Some? ==> r.value < |url| && LidlRangeAt(url, r.value)
    ensures r.Some? ==> forall j :: 0 <= j < r.value ==> !LidlRangeAt(url, j)
    ensures r.None? ==> forall j :: 0 <= j < |url| ==> !LidlRangeAt(url, j)
  {
    var at := (i: nat) => LidlRangeAt(url, i);
    assert forall i: nat :: at(i) == LidlRangeAt(url, i);
    FirstIndex(0, |url|, at)
  }

  /** The window a Lidl range names: validFrom = UTC(currentYear, M1 - 1, D1) and
      validTo = UTC(currentYear, M2 - 1, D2). */
  function RangeWindow(d1: string, m1: string, d2: string, m2: string, currentYear: int): (w: Window)
    requires AllDigits(d1) && AllDigits(m1) && AllDigits(d2) && AllDigits(m2)
    ensures w.validFrom % MsPerDay == 0 && w.validTo % MsPerDay == 0
    ensures IsCalendarDate(currentYear, DigitsValue(m1) - 1, DigitsValue(d1)) && currentYear >= 100 ==>
      w.validFrom == CalendarDay(currentYear, DigitsValue(m1) - 1, DigitsValue(d1)) * MsPerDay
    ensures IsCalendarDate(currentYear, DigitsValue(m2) - 1, DigitsValue(d2)) && currentYear >= 100 ==>
      w.validTo == CalendarDay(currentYear, DigitsValue(m2) - 1, DigitsValue(d2)) * MsPerDay
  {
    DateUtcIsCalendarDay(currentYear, DigitsValue(m1) - 1, DigitsValue(d1));
    DateUtcIsCalendarDay(currentYear, DigitsValue(m2) - 1, DigitsValue(d2));
    Window(DateUtc(currentYear, DigitsValue(m1) - 1, DigitsValue(d1)),
           DateUtc(currentYear, DigitsValue(m2) - 1, DigitsValue(d2)))
  }

  /** The Lidl window: both dates in `currentYear` from the first range in the URL, or
      the zero-length window [now, now] when the URL holds none. */
  function LidlWindow(url: string, now: int, currentYear: int): (w: Window)
    ensures (forall i :: 0 <= i < |url| ==> !LidlRangeAt(url, i)) ==> w == Window(now, now)
    ensures (exists i :: LidlRangeAt(url, i)) ==> w.validFrom % MsPerDay == 0 && w.validTo % MsPerDay == 0
  {
    match FirstLidlRange(url)
    case None => Window(now, now)
    case Some(i) =>
      var t := url[i..i + 25];
      RangeWindow(t[11..13], t[14..16], t[20..22], t[23..25], currentYear)
  }

  /** The first range decides: `pre + vrijedi-od-D1-M1-do-D2-M2 + post`, with no earlier
      match, gets validFrom = UTC(currentYear, M1 - 1, D1), validTo = UTC(currentYear, M2 - 1, D2). */
  lemma LidlWindowOfFirstRange(pre: string, d1: string, m1: string, d2: string, m2: string, post: string,
                               now: int, currentYear: int)
    requires |d1| == 2 && |m1| == 2 && |d2| == 2 && |m2| == 2
    requires AllDigits(d1) && AllDigits(m1) && AllDigits(d2) && AllDigits(m2)
    requires forall j :: 0 <= j < |pre| ==> !LidlRangeAt(pre + LidlRangeText(d1, m1, d2, m2) + post, j)
    ensures LidlWindow(pre + LidlRangeText(d1, m1, d2, m2) + post, now, currentYear)
         == RangeWindow(d1, m1, d2, m2, currentYear)
  {
    var text := LidlRangeText(d1, m1, d2, m2);
    var url := pre + text + post;
    var i := |pre|;
    assert text[..11] == "vrijedi-od-";
    assert text[11..13] == d1 && text[13] == '-' && text[14..16] == m1;
    assert text[16..20] == "-do-";
    var tail := d2 + ("-" + m2);
    assert text[20..] == tail;
    assert tail[..2] == d2 && tail[2] == '-' && tail[3..] == m2;
    assert text[20..22] == d2 && text[22] == '-' && text[23..25] == m2;
    assert url[i..i + 25] == text;
    assert LidlRangeAt(url, i);
    var r := FirstLidlRange(url);
    assert r.Some? && r.value == i;
  }

  // ---------------------------------------------------------------------------------
  // Eurospin: /^P\d+(\d{1,2})(\d{4})HR$/i on the `code` query value

  /** The Eurospin pattern matches the whole code: `P`, a run of at least six digits, `HR`,
      letters in either case. Backtracking gives the greedy `\d+` every digit but the last
      five, so the month group always captures exactly one digit and the year group the
      last four. */
  predicate EurospinCodeMatches(code: string): (b: bool)
    ensures b ==> |code| >= 9 && var digits := code[1..|code| - 2];
      |digits| >= 6 && AllDigits(digits[..|digits| - 5]) && IsDigit(digits[|digits| - 5]) && AllDigits(digits[|digits| - 4..])
  {
    |code| >= 9 && Lower(code[0]) == 'p' && AllDigits(code[1..|code| - 2]) &&
    Lower(code[|code| - 2]) == 'h' && Lower(code[|code| - 1]) == 'r'
  }

  /** The Eurospin convention: a leaflet runs from the 20th to the 27th of its month
      (`month` 1-based, rolled over by Date.UTC when it is 0). */
  function PromotionWeek(month: int, year: int): (w: Window)
    ensures w.validTo == w.validFrom + Week
  {
    DateUtcShiftDays(year, month - 1, 20, 7);
    Window(DateUtc(year, month - 1, 20), DateUtc(year, month - 1, 20 + 7))
  }

  /** The Eurospin window: the 20th to the 27th of the coded month, or the week-from-today
      fallback for an absent or malformed code; always exactly seven days long. */
  function EurospinWindow(code: string, now: int): (w: Window)
    ensures w.validFrom % MsPerDay == 0
    ensures w.validTo == w.validFrom + Week
    ensures !EurospinCodeMatches(code) ==> w == WeekFromToday(now)
  {
    if EurospinCodeMatches(code) then
      var digits := code[1..|code| - 2];
      assert digits[|digits| - 5..|digits| - 4] == [digits[|digits| - 5]];
      var month := DigitsValue(digits[|digits| - 5..|digits| - 4]);
      var year := DigitsValue(digits[|digits| - 4..]);
      PromotionWeek(month, year)
    else WeekFromToday(now)
  }

  /** A matching code is read from its digits: the month is the fifth digit from the end
      and the year the last four. */
  lemma EurospinWindowOfDigits(p: char, digits: string, h: char, r: char, now: int)
    requires Lower(p) == 'p' && Lower(h) == 'h' && Lower(r) == 'r'
    requires |digits| >= 6 && AllDigits(digits)
    ensures EurospinWindow([p] + digits + [h, r], now)
         == PromotionWeek(DigitsValue([digits[|digits| - 5]]), DigitsValue(digits[|digits| - 4..]))
  {
    var code := [p] + digits + [h, r];
    assert code[1..|code| - 2] == digits;
    assert digits[|digits| - 5..|digits| - 4] == [digits[|digits| - 5]];
  }

  /** A code `P<page><m><yyyy>HR` (any case) decodes to the 20th to the 27th of month m of
      year yyyy, however many digits the page number has: the month is never read as two
      digits. */
  lemma EurospinWindowOfCode(p: char, page: string, m: char, year: string, h: char, r: char, now: int)
    requires Lower(p) == 'p' && Lower(h) == 'h' && Lower(r) == 'r'
    requires |page| >= 1 && AllDigits(page) && IsDigit(m) && |year| == 4 && AllDigits(year)
    ensures EurospinWindow([p] + (page + ([m] + year)) + [h, r], now) == PromotionWeek(DigitsValue([m]), DigitsValue(year))
  {
    var tail := [m] + year;
    var digits := page + tail;
    assert AllDigits(tail);
    assert AllDigits(digits) by {
      forall i | 0 <= i < |digits|
        ensures IsDigit(digits[i])
      {
        if i < |page| {
          assert digits[i] == page[i];
        } else {
          assert digits[i] == tail[i - |page|];
        }
      }
    }
    assert digits[|digits| - 5] == m by {
      assert digits[|page|] == tail[0];
    }
    assert digits[|digits| - 4..] == year by {
      assert digits[|page|..] == tail;
      assert tail[1..] == year;
    }
    EurospinWindowOfDigits(p, digits, h, r, now);
  }


}
