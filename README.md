# PromoZone leaflet ingestion, modelled in Dafny

PromoZone collects the promotional leaflets ("letci", "katalozi") of Croatian grocery
chains. Its scraper visits one page per chain (SPAR/Interspar, DM, Lidl, Eurospin),
collects the flyer links, decodes each link's validity window from dates embedded in the
URL, and upserts one normalised record per flyer URL into the `leaflets` collection:
`{url, validFrom, validTo, chain, scrapedAt}`.

This project models that pipeline in `scraper.js`:

- `text.dfy` (module `Text`): an `Option` type, digit strings and their values, substring
  search, case-insensitive suffixes, and a leftmost-index search. These are the building
  blocks of the hand-written regular expressions.
- `ecma_time.dfy` (module `EcmaTime`): `Date.UTC` as ECMA-262 defines it, following
  MakeDay and DayFromYear. Months are 0-based, out-of-range months and days roll over,
  and years 0..99 map to 1900..1999. It also gives an independent year-by-year day count
  and proves the closed form equal to it.
- `records.dfy` (module `Records`): the leaflet record, the chain tags and a validity window.
- `decoders.dfy` (module `Decoders`): the four date decoders. These are `parseDateFromSegment`
  with the SPAR segment pattern, the DM slug pattern read from the end of the URL, the
  Lidl range pattern, and the Eurospin code pattern with its "20th to 27th" convention.
  They also include the two fallback windows.
- `links.dfy` (module `Links`): the `.each` callbacks that build the SPAR and Lidl link
  sets, as a method proved against a specification. It also holds DM's choice of the
  first `-web` link.
- `store.dfy` (module `Store`): the `leaflets` collection as a class over a map from url
  to record, with the upsert and the write-loop fold.
- `plan.dfy` (module `Plan`): the per-url write loop of the SPAR and Lidl runs, where a
  failing `updateOne` is caught and the loop goes on. It is written as a method and proved
  against the records it plans to write.
- `scraper.dfy` (module `Scraper`): the four run procedures. Each one is a method that
  changes the store and is proved against a function stating the collection after the run.
- `worked.dfy` (module `Worked`): exact time values for the URLs and codes the scrapers
  meet. One is `P162025HR`, which gives 2025-06-20 to 2025-06-27 UTC.

Time values are integer milliseconds since 1970-01-01T00:00:00Z. The browser is a
parameter: a fetch either fails or yields the page's anchors. Each run's clock reading is
the parameter `now`. The Lidl loop also reads the local calendar year once for each url it
decodes; that reading is the parameter `yearAt(url)`. URL resolution is the parameter
`resolve`, where None means the URL constructor throws. The `updateOne` calls that throw
are given as the set `failing` of urls.

The SPAR and Lidl runs share one generic write loop (`Plan.WriteLeaflets`) over a
decoding `string -> Option<Leaflet>`. `Scraper.EntryOf` is the chain's decoding at the
run's `now`.

Three behaviours of the code worth knowing:

- A SPAR URL whose six digits are not preceded by `/` (for example
  `.../letci/aktualni-letci-250618`) has no date segment. The loop skips it and writes
  nothing; there is no fallback (`Worked.SparUrlWithoutSlashIsSkipped`).
- DM and Lidl decode the two dates independently, so their windows may end before they
  start (`Decoders.DmWindowMayBeReversed`).
- The greedy `\d+` of the Eurospin pattern leaves one digit for the month. So a code meant
  for December (`...12yyyyHR`) reads as February (`Worked.EurospinDecemberReadsAsFebruary`).

## Model

| member | source | states |
|---|---|---|
| Text.DigitsValue | scraper.js:11-13 | `parseInt(s, 10)` of a digit string, read as a decimal number below 10^len |
| Text.FirstIndex | scraper.js:69 | the leftmost position in a range satisfying a predicate, or None when there is none: the search order of `String.prototype.match` |
| EcmaTime.DateUtc | scraper.js:16 | `Date.UTC(y, m, d)` is always a UTC midnight (a multiple of 86 400 000 ms) |
| EcmaTime.FloorStep | scraper.js:16 | floor division by 4, 100 or 400 steps up by one exactly at multiples (the leap-year counting behind DayFromYear) |
| EcmaTime.DayFromYearStep | scraper.js:16 | consecutive years' first days are DaysInYear apart under the Gregorian leap rule |
| EcmaTime.DayFromYearCountsYears | scraper.js:16 | the closed-form DayFromYear equals counting whole years from 1970 one by one |
| EcmaTime.MonthStartStep | scraper.js:16 | each month starts where the previous ends and the twelve months fill the year |
| EcmaTime.MakeDayIsCalendarDay | scraper.js:16 | for a month in [0, 12), MakeDay is the calendar day number of the date |
| EcmaTime.DateUtcIsCalendarDay | scraper.js:16 | outside years 0..99, `Date.UTC` of a month in [0, 12) is midnight of that calendar day |
| EcmaTime.DateUtcShiftDays | scraper.js:284 | adding k to the day argument moves the result exactly k days (the `20 + 7` of Eurospin) |
| EcmaTime.DateUtcLaterDay | scraper.js:155-156 | within one month argument, a later day argument is a strictly later time |
| EcmaTime.MakeDayShiftYear | scraper.js:155-156 | twelve months more is one year more (month roll-over) |
| EcmaTime.MakeDayEndOfMonth | scraper.js:155-156 | the day after a month's last day is the first of the next month, across the year end too |
| EcmaTime.MakeDayNewYear | scraper.js:155-156 | month 12 of a year is 1 January of the next year |
| EcmaTime.MakeDayWithinYear | scraper.js:155-156 | a real calendar date falls between its year's first day and the next year's |
| EcmaTime.DayFromYearIncreasing | scraper.js:155-156 | a later year starts after the whole of every earlier year |
| EcmaTime.MonthStartIncreasing | scraper.js:155-156 | a later month starts after the whole of every earlier month |
| EcmaTime.MakeDayOrdered | scraper.js:155-156 | on real calendar dates, MakeDay is strictly increasing in (year, month, day) order |
| Decoders.UtcMidnight | scraper.js:159-160 | `setUTCHours(0,0,0,0)` gives the UTC midnight at or before `now`, less than a day before it |
| Decoders.WeekFromToday | scraper.js:157-162 | the fallback window starts at today's UTC midnight and lasts exactly seven days |
| Decoders.FirstSparSegment | scraper.js:69 | the leftmost match of `/\/(\d{6})[-/]/`, or None when it matches nowhere |
| Decoders.ParseDateFromSegment | scraper.js:10-17 | `YYMMDD` is UTC midnight of 20YY-MM-DD (a calendar day number when MM is 1..12) |
| Decoders.SparWindow | scraper.js:69-77 | None exactly when no segment matches; otherwise a UTC midnight and exactly seven days later |
| Decoders.SparChain | scraper.js:79 | the chain is Interspar or SPAR, nothing else |
| Decoders.SparWindowOfFirstSegment | scraper.js:69-77 | the first segment decides: with no earlier match, `seg` gives [parseDateFromSegment(seg), +7 days] |
| Decoders.NoSparSegmentWithin | scraper.js:69 | no match starts in a digit-free prefix not ending in '/' |
| Decoders.TrailingDigits | scraper.js:141 | the length of the digit run ending the text; the character before it is not a digit |
| Decoders.TrailingDigitsOfRun | scraper.js:141 | a separator followed by digits has exactly those digits as its trailing run |
| Decoders.GroupAtEnd | scraper.js:141 | a match of `sep(\d{min,max})` at the end splits the text into rest, separator and digits |
| Decoders.GroupAtEndFinds | scraper.js:141 | every text ending in a separator and an in-range digit group is matched with that split |
| Decoders.ParseDmSlug | scraper.js:141-142 | a recognised URL is exactly `before_d1_m1-d2_m2_yyyy-web` with well-formed groups |
| Decoders.ParseDmSlugFinds | scraper.js:141-142 | every URL ending in a well-formed slug is recognised with exactly its captures |
| Decoders.SlugWindow | scraper.js:147-156 | both slug dates are UTC midnights; for a real calendar date in a year from 100 on, each is midnight of that calendar day |
| Decoders.DmWindow | scraper.js:141-162 | both ends of the DM window are UTC midnights |
| Decoders.DmWindowOfSlug | scraper.js:147-156 | a slug URL gets [UTC(Y, M1-1, d1), UTC(Y, M2-1, d2)] |
| Decoders.DmWindowFallback | scraper.js:157-162 | a URL without a slug gets today's midnight to +7 days |
| Decoders.DmWindowMayBeReversed | scraper.js:147-156 | the two DM dates are independent: a slug whose second day comes before its first day in the same month gives validTo < validFrom |
| Decoders.FirstLidlRange | scraper.js:216-217 | the leftmost match of the Lidl range pattern, or None |
| Decoders.LidlWindow | scraper.js:219-238 | no match gives the zero-length window [now, now]; a match gives UTC midnights |
| Decoders.RangeWindow | scraper.js:221-237 | both range dates are UTC midnights; for a real calendar date of the current year (from 100 on), each is midnight of that calendar day |
| Decoders.LidlWindowOfFirstRange | scraper.js:221-237 | the first range decides: [UTC(year, M1-1, D1), UTC(year, M2-1, D2)] |
| Decoders.PromotionWeek | scraper.js:283-284 | the Eurospin week is exactly seven days long |
| Decoders.EurospinCodeMatches | scraper.js:274 | a code the pattern accepts is `P`, at least six digits and `HR`: at least one digit for the page, one for the month and four for the year |
| Decoders.EurospinWindow | scraper.js:274-290 | a UTC midnight and seven days later; a non-matching code gives the week-from-today fallback |
| Decoders.EurospinWindowOfDigits | scraper.js:274-284 | a matching code's month is its fifth digit from the end and its year the last four |
| Decoders.EurospinWindowOfCode | scraper.js:274-284 | `P<page><m><yyyy>HR` in any case gives the 20th to the 27th of month m, for every page length |
| Links.Dedup | scraper.js:45-60 | the JavaScript Set: no repeats, and exactly the added values |
| Links.IsAshx | scraper.js:56 | a url ending in `.ashx` or `.ASHX` is skipped, and a skipped url has a dot five characters from its end |
| Links.LinkStep | scraper.js:48-61 | the callback throws iff the anchor is selected, has a non-empty href and that href does not resolve; an added url is that resolution and is not a skipped `.ashx` url |
| Links.Candidates | scraper.js:48-61 | a successful collection has at most one candidate per anchor and no skipped `.ashx` url |
| Links.CandidatesThrowIsFinal | scraper.js:48-61 | once the URL constructor throws, the whole collection fails (Lidl alike, lines 203-208) |
| Links.CandidatesMembers | scraper.js:48-61 | collection fails iff some selected non-empty href does not resolve; otherwise a url is collected iff a selected non-empty href resolves to it and is not a dropped `.ashx` |
| Links.CollectLinks | scraper.js:45-61 | the `.each` loop (Lidl: lines 200-208) returns None exactly when the collection throws, otherwise the deduplicated candidates |
| Links.DmCatalogueLinks | scraper.js:127-130 | a link is listed iff some anchor's attribute contains `katalog.dm.hr` and its resolved href is that link |
| Links.FirstWebLink | scraper.js:133-137 | None iff no link ends in `-web`; otherwise the first one that does |
| Links.FirstDmWebAnchor | scraper.js:127-133 | the leftmost anchor whose attribute contains `katalog.dm.hr` and whose resolved href ends in `-web`, or None when there is none |
| Links.FirstWebLinkAt | scraper.js:133 | a link ending in `-web` with no such link before it is the one `find` returns |
| Links.FirstWebLinkAppend | scraper.js:133 | `find` over two lists joined returns the first list's hit, or else the second list's |
| Links.FirstWebLinkShort | scraper.js:133 | `find` over at most one link returns it exactly when it ends in `-web` |
| Links.FirstDmWebAnchorSnoc | scraper.js:127-133 | one more anchor is the answer only when no earlier anchor qualifies and it does |
| Links.DmFlyerIsFirstWebAnchor | scraper.js:127-137 | the DM flyer is the href of the first anchor in document order whose attribute contains `katalog.dm.hr` and whose href ends in `-web`; None iff there is no such anchor |
| Store.Upserted | scraper.js:82-94 | the upserted url holds the new record; every other url keeps its presence and document |
| Store.UpsertedKeyed | scraper.js:82-94 | an upsert keeps one document per url, stored under its own url |
| Store.UpsertedSize | scraper.js:82-94 | upserting an existing url does not grow the collection; a new url adds exactly one |
| Store.UpsertedLastWins | scraper.js:82-94 | of two upserts of one url, the second wins |
| Store.UpsertedCommute | scraper.js:82-94 | upserts of different urls commute |
| Store.ApplyWrites | scraper.js:67-99 | the write loop never removes a url and adds at most one per planned record |
| Store.ApplyWritesSnoc | scraper.js:67-99 | one more planned record is one more attempted upsert after the others |
| Store.ApplyWritesKeyed | scraper.js:67-99 | a write loop keeps one document per url |
| Store.ApplyWritesLookup | scraper.js:81-98 | with distinct urls, a planned and non-failing url holds its record; a failing or unplanned url keeps its old document |
| Store.ApplyWritesFromPlan | scraper.js:67-99 | every document after the loop is either untouched or one of the planned records |
| Store.LeafletStore.constructor | scraper.js:64 | the collection handle starts from a keyed collection |
| Store.LeafletStore.Upsert | scraper.js:82-94 | a successful `updateOne` upsert: the new state is the upserted map, and one document per url is kept |
| Plan.Planned | scraper.js:67-79 | the plan has at most one record per link |
| Plan.PlannedStep | scraper.js:67-73 | one more link adds its record to the plan when it decodes and nothing when it does not |
| Plan.PlannedSound | scraper.js:67-79 | every planned record is one of the links' own decoded records |
| Plan.PlannedCompleteUpTo | scraper.js:67-79 | every decoding link among the first i has its record in their plan |
| Plan.PlannedComplete | scraper.js:67-79 | every decoding link has its record in the plan |
| Plan.PlannedDistinct | scraper.js:67-79 | links from a Set give a plan with no repeated url |
| Plan.WrittenLookup | scraper.js:67-99 | after the loop, a url holds its decoded record iff it is a decoding link whose write did not fail; every other url is unchanged |
| Plan.WriteLeaflets | scraper.js:67-99 | the loop (Lidl: lines 214-258) leaves exactly the fold of its attempted upserts, skipping failed writes and going on |
| Scraper.Entry | scraper.js:69-90 | a built record (Lidl: lines 216-249) carries the link's url and the run's `now` |
| Scraper.EntryDecodes | scraper.js:69-79 | SPAR skips exactly the urls without a segment, uses its window and tags Interspar iff the url contains "interspar"; Lidl (lines 216-248) writes every url with its Lidl window |
| Scraper.EntryOf | scraper.js:65-90 | a chain's decoding keeps the url, and every record it builds shares the run's `scrapedAt` |
| Scraper.CollectingRun | scraper.js:37-99 | a SPAR or Lidl run (lines 192-258) never removes a url and adds at most one per anchor on the page |
| Scraper.CollectingRunLookup | scraper.js:37-99 | for SPAR and Lidl (lines 192-258) alike, a url holds a fresh record iff the page loaded, collection did not throw, the url was collected, it decodes and its write did not fail; every other url is unchanged |
| Scraper.CollectingRunScrapedAt | scraper.js:65-90 | every record a run writes carries the run's single `now` (Lidl: lines 212-249) |
| Scraper.ScrapeCollecting | scraper.js:37-61 | for SPAR and Lidl (lines 192-208) alike, a fetch failure or a throwing collection leaves the store unchanged; otherwise the store is the run's result |
| Scraper.ScrapeSparInterspar | scraper.js:33-100 | the SPAR run leaves exactly the collecting run's result with the SPAR rule and decoding |
| Scraper.ScrapeLidl | scraper.js:188-259 | the Lidl run leaves exactly the collecting run's result with the Lidl rule and decoding |
| Scraper.SparRunLookup | scraper.js:33-100 | after a SPAR run, a url holds a new record iff collected, dated and not failing, with the segment's window and chain; others are unchanged |
| Scraper.LidlRunLookup | scraper.js:188-259 | after a Lidl run, a url holds a new Lidl record iff collected and not failing, with its Lidl window for the year read for that url; others are unchanged |
| Scraper.CollectedLinksFiltered | scraper.js:48-61 | the SPAR set never holds an `.ashx` url; the Lidl set (lines 203-208) holds exactly the resolved, selected, non-empty hrefs |
| Scraper.DmLeaflet | scraper.js:165-176 | the DM record carries the flyer url, the DM tag, `now` and the decoded window |
| Scraper.DmRun | scraper.js:104-184 | a DM run never removes a url and adds at most one |
| Scraper.DmRunWritesFlyerOnly | scraper.js:104-184 | a DM run writes at most the first `-web` link (unless its write fails); every other url is unchanged |
| Scraper.ScrapeDm | scraper.js:104-184 | fetch failure, timeout or no `-web` link returns with no write; otherwise one upsert of the flyer |
| Scraper.EurospinLeaflet | scraper.js:265-305 | the Eurospin record has the fixed url, a seven-day window, and the fallback when the code is absent |
| Scraper.ScrapeEurospin | scraper.js:263-312 | one upsert of the fixed flyer url, or no change when the write fails |
| Worked.EurospinJune2025 | scraper.js:265-284 | `P162025HR` gives 2025-06-20 to 2025-06-27 UTC |
| Worked.EurospinFlyerRecord | scraper.js:293-307 | the exact Eurospin record for the fixed flyer url |
| Worked.EurospinDecemberReadsAsFebruary | scraper.js:274-284 | `P<page>12<yyyy>HR` reads as the 20th to 27th of February |
| Worked.EurospinMonthIsOneDigit | scraper.js:274-284 | `P1122025HR` gives 2025-02-20 to 2025-02-27 UTC |
| Worked.Segment250618 | scraper.js:10-17 | `parseDateFromSegment("250618")` is 2025-06-18T00:00:00Z |
| Worked.SparSegment250618 | scraper.js:69-77 | a URL with `/250618-` and no earlier digits gives 2025-06-18 to 2025-06-25 UTC |
| Worked.IntersparSegment250618 | scraper.js:69-90 | such a URL naming "interspar" is written as an Interspar record |
| Worked.SparUrlWithoutSlashIsSkipped | scraper.js:69-73 | `.../aktualni-letci-250618` has no segment and produces no record |
| Worked.DmSlugJune2025 | scraper.js:141-156 | `_16_6-30_6_2025-web` gives 2025-06-16 to 2025-06-30 UTC |
| Worked.RangeJune2025 | scraper.js:224-237 | the range 18-06 to 21-06 in 2025 gives 2025-06-18 to 2025-06-21 UTC |
| Worked.LidlRangeJune2025 | scraper.js:216-237 | a Lidl URL holding `vrijedi-od-18-06-do-21-06`, scraped in 2025, gives 2025-06-18 to 2025-06-21 UTC |

## Left out

- Page fetching and DOM waiting with Puppeteer (`fetchPageHtml`, `page.goto`,
  `waitForSelector`). These are the external browser and network. A fetch is an input
  that either failed or yields the page's hrefs, or its anchors for DM. The DM wait that
  times out is an empty list of `katalog.dm.hr` links.
- cheerio parsing and CSS selection. `a[href*="…"]` is substring containment over the
  given list of `href` attributes in document order.
- `new URL(href, base)` and `searchParams.get('code')`. They are URL-standard parsing:
  resolution is the function parameter `resolve`, and Eurospin's query value is the
  parameter `code`.
- `main`: database connection, `deleteMany`/`dropIndex`, browser launch and shutdown. These
  are I/O orchestration. server.js, seed.js, user_seed.js and db.js are not part of this
  model.
- Console logging.
- The clock. `new Date()` is the parameter `now`. DM and Eurospin read the clock twice
  (once for the fallback window and once for `scrapedAt`); the model uses one reading for
  both.
- Scraper.ScrapeLidl: `new Date().getFullYear()` (scraper.js:222) is read afresh for each
  url whose range matches. It is the year in the machine's local time zone, and it is fed to
  `Date.UTC` as if it were a UTC year. The model takes these readings as the parameter
  `yearAt`, one per url. It does not relate them to `now` or to each other: the time zone,
  and the order of the readings within the run, are not modelled.
- Decoders.SparWindow: `validTo.setDate(getDate() + 7)` is local-time arithmetic. It is
  modelled as exactly seven UTC days, which is what it gives when no daylight-saving
  change falls within the week.
- EcmaTime.DateUtc: TimeClip is not modelled. Dates beyond ±8.64e15 ms, which become
  Invalid Date in JavaScript, stay ordinary integers here.
- Store.LeafletStore.Upsert: a document is the five `$set` fields. Other fields of a
  stored document (its `_id`) are not modelled. A write is atomic: an `updateOne` either
  completes or throws without effect, and which ones throw is the input set `failing`.
- Concurrency between runs, and the asynchronous ordering of `await`, are not modelled.
  Each run is a sequential step on the collection.

