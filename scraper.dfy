/** The four run procedures of scraper.js: fetch a page, collect its flyer links, decode
    each link's validity window and upsert one leaflet record per link. The browser is a
    parameter: a fetch is either a failure (navigation threw) or the page, given as the
    hrefs of its anchors. `new URL(href, base)` is the parameter `resolve` of each run, the
    clock is `now` (milliseconds) and, for Lidl, `yearAt`, and the `updateOne` calls that throw
    are the set `failing` of the urls they were issued for. */
module Scraper {
  import opened Text
  import opened Records
  import opened Decoders
  import opened Links
  import opened Store
  import opened Plan

  /** What the browser hands back: a failure when navigation throws, or the loaded page. */
  datatype Fetched<T> = FetchFailed | Loaded(page: T)

  /** How the write loop of a collecting run decodes one url. The Lidl loop reads the clock's
      local calendar year afresh for each url it decodes; `yearAt(url)` is that reading.
      The links come from a Set, so each url is decoded once and one reading per url is one
      reading per iteration. */
  datatype Decoding = SparDecoding | LidlDecoding(yearAt: string -> int)

  /** The record the loop body builds for one collected url, or None where the SPAR loop
      skips a url without a date segment. The Lidl loop writes every url. */
  function Entry(dec: Decoding, url: string, now: int): (r: Option<Leaflet>)
    ensures r.Some? ==> r.value.url == url && r.value.scrapedAt == now
  {
    match dec
    case SparDecoding =>
      (match SparWindow(url)
       case None => None
       case Some(w) => Some(Leaflet(url, w.validFrom, w.validTo, SparChain(url), now)))
    case LidlDecoding(yearAt) =>
      var year := yearAt(url);
      var w := LidlWindow(url, now, year);
      Some(Leaflet(url, w.validFrom, w.validTo, Lidl, now))
  }

  /** What the loop bodies do with one url: SPAR skips exactly the urls without a date
      segment and tags a url Interspar exactly when it contains "interspar"; Lidl writes
      every url with its decoded window. */
  lemma EntryDecodes(dec: Decoding, url: string, now: int)
    ensures dec.SparDecoding? ==> (Entry(dec, url, now).None? <==> forall i :: 0 <= i < |url| ==> !SparSegmentAt(url, i))
    ensures dec.SparDecoding? && Entry(dec, url, now).Some? ==>
      var r := Entry(dec, url, now).value;
      Some(Window(r.validFrom, r.validTo)) == SparWindow(url) && (r.chain == Interspar <==> Contains(url, "interspar"))
    ensures dec.LidlDecoding? ==>
      var r := Entry(dec, url, now);
      r.Some? && r.value.chain == Lidl && Window(r.value.validFrom, r.value.validTo) == LidlWindow(url, now, dec.yearAt(url))
  {
  }

  /** The decoding of a run's write loop at clock reading `now`. */
  function EntryOf(dec: Decoding, now: int): (decode: string -> Option<Leaflet>)
    ensures KeepsUrl(decode)
    ensures forall u :: decode(u).Some? ==> decode(u).value.scrapedAt == now
  {
    u => Entry(dec, u, now)
  }

  /** What a collecting run (SPAR/Interspar or Lidl) leaves in the collection. */
  function CollectingRun(docs: map<string, Leaflet>, page: Fetched<seq<string>>, rule: LinkRule,
                         decode: string -> Option<Leaflet>, resolve: string -> Option<string>, failing: set<string>): (after: map<string, Leaflet>)
    ensures docs.Keys <= after.Keys
    ensures |after| <= |docs| + (if page.Loaded? then |page.page| else 0)
  {
    match page
    case FetchFailed => docs
    case Loaded(hrefs) =>
      (match Candidates(hrefs, rule, resolve)
       case None => docs
       case Some(c) => ApplyWrites(docs, Planned(Dedup(c), decode), failing))
  }

  /** After a collecting run, a url holds a freshly decoded record exactly when the page
      loaded, no href failed to resolve, the url was collected from a selected href, it
      decodes, and its write did not fail; every other url keeps its old document. */
  lemma CollectingRunLookup(docs: map<string, Leaflet>, page: Fetched<seq<string>>, rule: LinkRule,
                            decode: string -> Option<Leaflet>, resolve: string -> Option<string>, failing: set<string>, u: string)
    requires KeepsUrl(decode)
    ensures var after := CollectingRun(docs, page, rule, decode, resolve, failing);
      var written := page.Loaded? && Candidates(page.page, rule, resolve).Some? &&
                     u in Candidates(page.page, rule, resolve).value && decode(u).Some? && u !in failing;
      (written ==> u in after && Some(after[u]) == decode(u)) &&
      (!written ==> (u in after <==> u in docs) && (u in docs ==> after[u] == docs[u]))
  {
    if page.Loaded? && Candidates(page.page, rule, resolve).Some? {
      var links := Dedup(Candidates(page.page, rule, resolve).value);
      WrittenLookup(docs, links, decode, failing, u);
    }
  }

  /** Every record a collecting run writes carries the same `scrapedAt`, the run's `now`. */
  lemma CollectingRunScrapedAt(docs: map<string, Leaflet>, page: Fetched<seq<string>>, rule: LinkRule,
                               decode: string -> Option<Leaflet>, resolve: string -> Option<string>, now: int, failing: set<string>)
    requires KeepsUrl(decode) && forall u :: decode(u).Some? ==> decode(u).value.scrapedAt == now
    ensures var after := CollectingRun(docs, page, rule, decode, resolve, failing);
      forall u :: u in after ==> (u in docs && after[u] == docs[u]) || after[u].scrapedAt == now
  {
    if page.Loaded? && Candidates(page.page, rule, resolve).Some? {
      var plan := Planned(Dedup(Candidates(page.page, rule, resolve).value), decode);
      PlannedSound(Dedup(Candidates(page.page, rule, resolve).value), decode);
      ApplyWritesFromPlan(docs, plan, failing);
    }
  }

  /** Fetch the page, collect its links into a Set, then upsert the records. A failed fetch
      returns before any write; an href the URL constructor rejects throws out of the
      collecting callback, so the run ends (`threw`) before any write as well. */
  method ScrapeCollecting(store: LeafletStore, page: Fetched<seq<string>>, rule: LinkRule,
                          decode: string -> Option<Leaflet>, resolve: string -> Option<string>, failing: set<string>)
    returns (threw: bool)
    requires store.Valid()
    modifies store
    ensures store.Valid()
    ensures threw <==> page.Loaded? && Candidates(page.page, rule, resolve).None?
    ensures page.FetchFailed? || threw ==> store.docs == old(store.docs)
    ensures store.docs == CollectingRun(old(store.docs), page, rule, decode, resolve, failing)
  {
    threw := false;
    if page.FetchFailed? {
      return;
    }
    var links := CollectLinks(page.page, rule, resolve);
    if links.None? {
      threw := true;
      return;
    }
    WriteLeaflets(store, links.value, decode, failing);
  }

  /** `scrapeSparInterspar`: `resolve` resolves against https://www.spar.hr/letci-i-katalozi/. */
  method ScrapeSparInterspar(store: LeafletStore, page: Fetched<seq<string>>, resolve: string -> Option<string>,
                             now: int, failing: set<string>)
    returns (threw: bool)
    requires store.Valid()
    modifies store
    ensures store.Valid()
    ensures threw <==> page.Loaded? && Candidates(page.page, SparRule, resolve).None?
    ensures store.docs == CollectingRun(old(store.docs), page, SparRule, EntryOf(SparDecoding, now), resolve, failing)
  {
    threw := ScrapeCollecting(store, page, SparRule, EntryOf(SparDecoding, now), resolve, failing);
  }

  /** `scrapeLidl`: `resolve` resolves against https://www.lidl.hr/c/online-katalog/s10027538,
      and `yearAt(url)` is the local year the clock shows when the loop decodes `url`. */
  method ScrapeLidl(store: LeafletStore, page: Fetched<seq<string>>, resolve: string -> Option<string>,
                    now: int, yearAt: string -> int, failing: set<string>)
    returns (threw: bool)
    requires store.Valid()
    modifies store
    ensures store.Valid()
    ensures threw <==> page.Loaded? && Candidates(page.page, LidlRule, resolve).None?
    ensures store.docs == CollectingRun(old(store.docs), page, LidlRule, EntryOf(LidlDecoding(yearAt), now), resolve, failing)
  {
    threw := ScrapeCollecting(store, page, LidlRule, EntryOf(LidlDecoding(yearAt), now), resolve, failing);
  }

  /** After `scrapeSparInterspar`, a url holds a new SPAR or Interspar record exactly when
      the page loaded, every selected href resolved, the url was collected, it has a date
      segment and its write did not fail; the record carries the segment's window, the
      chain its name says and the run's `now`. Every other url keeps its old document. */
  lemma SparRunLookup(docs: map<string, Leaflet>, page: Fetched<seq<string>>, resolve: string -> Option<string>,
                      now: int, failing: set<string>, u: string)
    ensures var after := CollectingRun(docs, page, SparRule, EntryOf(SparDecoding, now), resolve, failing);
      var written := page.Loaded? && Candidates(page.page, SparRule, resolve).Some? &&
                     u in Candidates(page.page, SparRule, resolve).value && SparWindow(u).Some? && u !in failing;
      (written ==> u in after && after[u].url == u && after[u].scrapedAt == now &&
                   Some(Window(after[u].validFrom, after[u].validTo)) == SparWindow(u) &&
                   (after[u].chain == Interspar <==> Contains(u, "interspar"))) &&
      (!written ==> (u in after <==> u in docs) && (u in docs ==> after[u] == docs[u]))
  {
    CollectingRunLookup(docs, page, SparRule, EntryOf(SparDecoding, now), resolve, failing, u);
    EntryDecodes(SparDecoding, u, now);
  }

  /** After `scrapeLidl`, a url holds a new Lidl record exactly when the page loaded, every
      selected href resolved, the url was collected and its write did not fail; the record
      carries the url's Lidl window and the run's `now`. Every other url keeps its old
      document. */
  lemma LidlRunLookup(docs: map<string, Leaflet>, page: Fetched<seq<string>>, resolve: string -> Option<string>,
                      now: int, yearAt: string -> int, failing: set<string>, u: string)
    ensures var after := CollectingRun(docs, page, LidlRule, EntryOf(LidlDecoding(yearAt), now), resolve, failing);
      var written := page.Loaded? && Candidates(page.page, LidlRule, resolve).Some? &&
                     u in Candidates(page.page, LidlRule, resolve).value && u !in failing;
      (written ==> u in after && after[u].url == u && after[u].scrapedAt == now && after[u].chain == Lidl &&
                   Window(after[u].validFrom, after[u].validTo) == LidlWindow(u, now, yearAt(u))) &&
      (!written ==> (u in after <==> u in docs) && (u in docs ==> after[u] == docs[u]))
  {
    CollectingRunLookup(docs, page, LidlRule, EntryOf(LidlDecoding(yearAt), now), resolve, failing, u);
    EntryDecodes(LidlDecoding(yearAt), u, now);
  }

  /** The SPAR link set never holds an `.ashx` endpoint, and the Lidl link set holds every
      resolved, selected, non-empty href. */
  lemma CollectedLinksFiltered(hrefs: seq<string>, resolve: string -> Option<string>, u: string)
    ensures Candidates(hrefs, SparRule, resolve).Some? && u in Candidates(hrefs, SparRule, resolve).value ==> !IsAshx(u)
    ensures Candidates(hrefs, LidlRule, resolve).Some? ==>
      (u in Candidates(hrefs, LidlRule, resolve).value <==>
         exists i :: 0 <= i < |hrefs| && Selected(LidlRule, hrefs[i]) && hrefs[i] != "" && resolve(hrefs[i]) == Some(u))
  {
    CandidatesMembers(hrefs, SparRule, resolve, u);
    CandidatesMembers(hrefs, LidlRule, resolve, u);
  }

  // ---------------------------------------------------------------------------------
  // DM

  /** The record `scrapeDm` writes for its flyer link. */
  function DmLeaflet(flyer: string, now: int): (r: Leaflet)
    ensures r.url == flyer && r.chain == Dm && r.scrapedAt == now
    ensures Window(r.validFrom, r.validTo) == DmWindow(flyer, now)
  {
    var w := DmWindow(flyer, now);
    Leaflet(flyer, w.validFrom, w.validTo, Dm, now)
  }

  /** What `scrapeDm` leaves in the collection. The page is the list of its anchors once
      loading has finished. */
  function DmRun(docs: map<string, Leaflet>, page: Fetched<seq<Anchor>>, now: int, failing: set<string>): (after: map<string, Leaflet>)
    ensures docs.Keys <= after.Keys
    ensures |after| <= |docs| + 1
  {
    match page
    case FetchFailed => docs
    case Loaded(anchors) =>
      (match FirstWebLink(DmCatalogueLinks(anchors))
       case None => docs
       case Some(flyer) =>
         UpsertedSize(docs, DmLeaflet(flyer, now));
         if flyer in failing then docs else Upserted(docs, DmLeaflet(flyer, now)))
  }

  /** A DM run writes at most one record: the first katalog.dm.hr link ending in "-web",
      decoded from its slug; without such a link nothing changes. */
  lemma DmRunWritesFlyerOnly(docs: map<string, Leaflet>, page: Fetched<seq<Anchor>>, now: int, failing: set<string>, u: string)
    ensures var after := DmRun(docs, page, now, failing);
      var flyer := if page.Loaded? then FirstWebLink(DmCatalogueLinks(page.page)) else None;
      (flyer.Some? && flyer.value == u && u !in failing ==> u in after && after[u] == DmLeaflet(u, now)) &&
      (!(flyer.Some? && flyer.value == u && u !in failing) ==>
        (u in after <==> u in docs) && (u in docs ==> after[u] == docs[u]))
  {
  }

  /** `scrapeDm`: load the page (a failure returns), wait for a katalog.dm.hr anchor (none
      means the wait times out and the run returns), pick the first "-web" link (none
      means the run returns), decode it and upsert one record. */
  method ScrapeDm(store: LeafletStore, page: Fetched<seq<Anchor>>, now: int, failing: set<string>)
    requires store.Valid()
    modifies store
    ensures store.Valid()
    ensures store.docs == DmRun(old(store.docs), page, now, failing)
  {
    if page.FetchFailed? {
      return;
    }
    var allLinks := DmCatalogueLinks(page.page);
    if allLinks == [] {
      return;
    }
    var flyerUrl := FirstWebLink(allLinks);
    if flyerUrl.None? {
      return;
    }
    var rec := DmLeaflet(flyerUrl.value, now);
    if flyerUrl.value !in failing {
      store.Upsert(rec);
    }
  }

  // ---------------------------------------------------------------------------------
  // Eurospin

  /** The one flyer url `scrapeEurospin` writes. */
  const EurospinFlyerUrl: string := "https://www.eurospin.hr/katalog/promotion?code=P162025HR"

  /** The record `scrapeEurospin` writes, given the `code` query value of its flyer url
      (None when the query has no `code`, which reads as the empty code). */
  function EurospinLeaflet(code: Option<string>, now: int): (r: Leaflet)
    ensures r.url == EurospinFlyerUrl && r.chain == Eurospin && r.scrapedAt == now
    ensures r.validTo == r.validFrom + Week
    ensures code.None? ==> Window(r.validFrom, r.validTo) == WeekFromToday(now)
  {
    var w := EurospinWindow(code.GetOr(""), now);
    assert code.None? ==> !EurospinCodeMatches("");
    Leaflet(EurospinFlyerUrl, w.validFrom, w.validTo, Eurospin, now)
  }

  /** `scrapeEurospin`: decode the code and upsert the one record; a throwing `updateOne`
      is caught and leaves the collection as it was. */
  method ScrapeEurospin(store: LeafletStore, code: Option<string>, now: int, failing: set<string>)
    requires store.Valid()
    modifies store
    ensures store.Valid()
    ensures store.docs == if EurospinFlyerUrl in failing then old(store.docs)
                          else Upserted(old(store.docs), EurospinLeaflet(code, now))
  {
    var codeParam := code.GetOr("");
    var w := EurospinWindow(codeParam, now);
    var rec := Leaflet(EurospinFlyerUrl, w.validFrom, w.validTo, Eurospin, now);
    if EurospinFlyerUrl !in failing {
      store.Upsert(rec);
    }
  }
}
