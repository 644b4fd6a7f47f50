/** Worked cases of the decoders on the flyer URLs and codes the scrapers meet, with the
    exact time values they store (milliseconds since 1970-01-01T00:00:00Z). */
module Worked {
  import opened Text
  import opened EcmaTime
  import opened Records
  import opened Decoders
  import opened Scraper

  lemma OneDigitValue(s: string)
    requires |s| == 1 && AllDigits(s)
    ensures DigitsValue(s) == s[0] as int - '0' as int
  {
    assert s[..0] == [];
  }

  lemma TwoDigitValue(s: string)
    requires |s| == 2 && AllDigits(s)
    ensures DigitsValue(s) == 10 * (s[0] as int - '0' as int) + (s[1] as int - '0' as int)
  {
    assert s[..1][..0] == [];
  }

  lemma Year2025()
    ensures DigitsValue("2025") == 2025
  {
    assert "2025"[..3] == "202";
    assert "202"[..2] == "20";
    assert "20"[..1] == "2";
  }

  /** Day numbers of the June 2025 dates used below (1 January 2025 is day 20089). */
  lemma June2025(d: int)
    requires 1 <= d <= 30
    ensures DateUtc(2025, 5, d) == (20089 + 151 + d - 1) * MsPerDay
  {
    assert DayFromYear(2025) == 20089;
  }

  /** Day numbers of the February 2025 dates used below. */
  lemma February2025(d: int)
    requires 1 <= d <= 28
    ensures DateUtc(2025, 1, d) == (20089 + 31 + d - 1) * MsPerDay
  {
    assert DayFromYear(2025) == 20089;
  }

  /** The Eurospin promotion week of June 2025: 2025-06-20 to 2025-06-27 UTC. */
  lemma PromotionWeekJune2025()
    ensures PromotionWeek(6, 2025) == Window(1750377600000, 1750982400000)
  {
    June2025(20);
    June2025(27);
  }

  /** The Eurospin promotion week of February 2025: 2025-02-20 to 2025-02-27 UTC. */
  lemma PromotionWeekFebruary2025()
    ensures PromotionWeek(2, 2025) == Window(1740009600000, 1740614400000)
  {
    February2025(20);
    February2025(27);
  }

  /** The fixed Eurospin code P162025HR: page 1, June 2025, so the leaflet runs from
      2025-06-20 to 2025-06-27 UTC. */
  lemma EurospinJune2025(now: int)
    ensures EurospinWindow("P162025HR", now) == Window(1750377600000, 1750982400000)
  {
    EurospinJuneWeek(now);
    assert ['P'] + ("1" + (['6'] + "2025")) + ['H', 'R'] == "P162025HR";
  }

  /** The parts of P162025HR, read back as the promotion week of June 2025. */
  lemma EurospinJuneWeek(now: int)
    ensures EurospinWindow(['P'] + ("1" + (['6'] + "2025")) + ['H', 'R'], now) == Window(1750377600000, 1750982400000)
  {
    EurospinWindowOfCode('P', "1", '6', "2025", 'H', 'R', now);
    OneDigitValue("6");
    Year2025();
    PromotionWeekJune2025();
  }

  /** The record `scrapeEurospin` writes for its fixed flyer url. */
  lemma EurospinFlyerRecord(now: int)
    ensures EurospinLeaflet(Some("P162025HR"), now)
         == Leaflet(EurospinFlyerUrl, 1750377600000, 1750982400000, Eurospin, now)
  {
    EurospinJune2025(now);
  }

  /** The greedy page number takes every digit but the last five, so a code meant as some
      page of December reads as a page of February: P<page>12<yyyy>HR runs from the 20th
      to the 27th of February. */
  lemma EurospinDecemberReadsAsFebruary(page: string, year: string, now: int)
    requires |page| >= 1 && AllDigits(page) && |year| == 4 && AllDigits(year)
    ensures EurospinWindow(['P'] + (page + ("12" + year)) + ['H', 'R'], now) == PromotionWeek(2, DigitsValue(year))
  {
    var page' := page + "1";
    assert AllDigits(page') by {
      forall i | 0 <= i < |page'|
        ensures IsDigit(page'[i])
      {
        if i < |page| {
          assert page'[i] == page[i];
        }
      }
    }
    assert page + ("12" + year) == page' + (['2'] + year);
    EurospinWindowOfCode('P', page', '2', year, 'H', 'R', now);
    OneDigitValue("2");
  }

  /** P1122025HR, page 1 of December 2025 as meant, runs from 2025-02-20 to 2025-02-27 UTC. */
  lemma EurospinMonthIsOneDigit(now: int)
    ensures EurospinWindow("P1122025HR", now) == Window(1740009600000, 1740614400000)
  {
    EurospinDecemberReadsAsFebruary("1", "2025", now);
    assert ['P'] + ("1" + ("12" + "2025")) + ['H', 'R'] == "P1122025HR";
    Year2025();
    PromotionWeekFebruary2025();
  }

  /** parseDateFromSegment("250618") is 2025-06-18T00:00:00Z. */
  lemma Segment250618()
    ensures ParseDateFromSegment("250618") == 1750204800000
  {
    var seg := "250618";
    assert seg[..2] == "25" && seg[2..4] == "06" && seg[4..] == "18";
    TwoDigitValue("25");
    TwoDigitValue("06");
    TwoDigitValue("18");
    June2025(18);
  }

  /** A SPAR/Interspar url whose path, free of digits up to it, carries the segment
      /250618-: the leaflet runs from 2025-06-18 to 2025-06-25 UTC. */
  lemma SparSegment250618(pre: string, post: string)
    requires forall k :: 0 <= k < |pre| ==> !IsDigit(pre[k])
    requires pre == [] || pre[|pre| - 1] != '/'
    ensures SparWindow(pre + "/250618-" + post) == Some(Window(1750204800000, 1750809600000))
  {
    var url := pre + "/250618-" + post;
    assert pre + "/" + "250618" + ['-'] + post == url;
    assert url == pre + ("/250618-" + post);
    NoSparSegmentWithin(pre, "/250618-" + post);
    SparWindowOfFirstSegment(pre, "250618", '-', post);
    Segment250618();
  }

  /** Such a url whose path names "interspar" is written as an Interspar leaflet. */
  lemma IntersparSegment250618(pre: string, post: string, now: int)
    requires forall k :: 0 <= k < |pre| ==> !IsDigit(pre[k])
    requires pre == [] || pre[|pre| - 1] != '/'
    requires Contains(pre, "interspar")
    ensures var url := pre + "/250618-" + post;
      Entry(SparDecoding, url, now) == Some(Leaflet(url, 1750204800000, 1750809600000, Interspar, now))
  {
    var url := pre + "/250618-" + post;
    SparSegment250618(pre, post);
    var i :| 0 <= i <= |pre| - 9 && OccursAt(pre, "interspar", i);
    assert url[i..i + 9] == pre[i..i + 9];
    assert OccursAt(url, "interspar", i);
  }

  /** A SPAR listing URL whose six digits follow a '-' rather than a '/' has no date
      segment, so the SPAR loop skips it and writes nothing for it. */
  lemma SparUrlWithoutSlashIsSkipped(now: int)
    ensures Entry(SparDecoding, "https://www.spar.hr/letci/aktualni-letci-250618", now) == None
  {
    var a := "https://www.spar.hr/letci/aktualni-letci-";
    var url := a + "250618";
    assert url == "https://www.spar.hr/letci/aktualni-letci-250618";
    NoSparSegmentWithin(a, "250618");
    forall j | |a| <= j < |url|
      ensures !SparSegmentAt(url, j)
    {
      assert IsDigit(url[j]);
    }
  }

  /** A DM flyer link ending in `_16_6-30_6_2025-web` runs from 2025-06-16 to 2025-06-30 UTC. */
  lemma DmSlugJune2025(before: string, now: int)
    ensures DmWindow(before + "_16_6-30_6_2025-web", now) == Window(1750032000000, 1751241600000)
  {
    var slug := DmSlug("16", "6", "30", "6", "2025");
    assert DmSlugUrl(before, slug) == before + "_16_6-30_6_2025-web";
    DmWindowOfSlug(before, slug, now);
    TwoDigitValue("16");
    TwoDigitValue("30");
    OneDigitValue("6");
    Year2025();
    June2025(16);
    June2025(30);
  }

  /** The Lidl range 18-06 to 21-06 in 2025: 2025-06-18 to 2025-06-21 UTC. */
  lemma RangeJune2025()
    ensures RangeWindow("18", "06", "21", "06", 2025) == Window(1750204800000, 1750464000000)
  {
    TwoDigitValue("18");
    TwoDigitValue("06");
    TwoDigitValue("21");
    June2025(18);
    June2025(21);
  }

  /** A Lidl flyer url holding `vrijedi-od-18-06-do-21-06`, with no 'v' before it, scraped
      in 2025: the leaflet runs from 2025-06-18 to 2025-06-21 UTC. */
  lemma LidlRangeJune2025(pre: string, post: string, now: int)
    requires forall k :: 0 <= k < |pre| ==> pre[k] != 'v'
    ensures LidlWindow(pre + "vrijedi-od-18-06-do-21-06" + post, now, 2025) == Window(1750204800000, 1750464000000)
  {
    var url := pre + LidlRangeText("18", "06", "21", "06") + post;
    assert LidlRangeText("18", "06", "21", "06") == "vrijedi-od-18-06-do-21-06";
    forall j | 0 <= j < |pre|
      ensures !LidlRangeAt(url, j)
    {
      assert url[j] == pre[j];
      if j + 25 <= |url| {
        assert url[j..j + 25][0] == url[j];
      }
    }
    LidlWindowOfFirstRange(pre, "18", "06", "21", "06", post, now, 2025);
    RangeJune2025();
  }
}
