/** Link collection of scraper.js: the `.each` callbacks that fill the `links` Set of the
    SPAR/Interspar and Lidl runs, and the DM choice of the one flyer link. The page is
    given as the list of `href` attribute values of its `<a>` elements in document order;
    `new URL(href, base).toString()` is the parameter `resolve`, which answers None where
    the URL constructor throws. */
module Links {
  import opened Text

  /** A CSS selector group `a[href*="n1"], a[href*="n2"], ...` and whether `.ashx`
      endpoints are dropped after resolution. */
  datatype LinkRule = LinkRule(needles: seq<string>, dropAshx: bool)

  /** SPAR/Interspar: `a[href*="aktualni-letci-"], a[href*="aktualni-katalozi-"]`, no `.ashx`. */
  const SparRule: LinkRule := LinkRule(["aktualni-letci-", "aktualni-katalozi-"], true)

  /** Lidl: `a[href*="/l/hr/letak/"]`, every resolved link kept. */
  const LidlRule: LinkRule := LinkRule(["/l/hr/letak/"], false)

  /** The selector group matches an anchor with this `href` attribute. */
  predicate Selected(rule: LinkRule, href: string)
  {
    exists k | 0 <= k < |rule.needles| :: Contains(href, rule.needles[k])
  }

  /** `/\.ashx$/i`: the proxy endpoints (getPdf, ViewPdf, ...) the SPAR run skips. */
  predicate IsAshx(url: string): (b: bool)
    ensures b ==> |url| >= 5 && url[|url| - 5] == '.'
    ensures EndsWith(url, ".ashx") || EndsWith(url, ".ASHX") ==> b
  {
    assert EndsWithIgnoreCase(url, ".ashx") ==> Lower(url[|url| - 5]) == ".ashx"[0];
    EndsWithIgnoreCase(url, ".ashx")
  }

  /** What the callback does with one anchor. */
  datatype Step = Skip | Add(url: string) | Throw

  /** The callback for one anchor: unselected and empty hrefs are skipped, the rest is
      resolved (a throwing URL constructor ends the whole collection), and a resolved
      `.ashx` URL is skipped where the rule says so. */
  function LinkStep(rule: LinkRule, resolve: string -> Option<string>, href: string): (r: Step)
    ensures r.Throw? <==> Selected(rule, href) && href != "" && resolve(href).None?
    ensures r.Add? ==> Selected(rule, href) && href != "" && resolve(href) == Some(r.url) && !(rule.dropAshx && IsAshx(r.url))
  {
    if !Selected(rule, href) || href == "" then Skip
    else
      match resolve(href)
      case None => Throw
      case Some(url) => if rule.dropAshx && IsAshx(url) then Skip else Add(url)
  }

  /** The URLs the callbacks hand to `links.add`, in document order and with repeats, or
      None when one of the callbacks throws. */
  function Candidates(hrefs: seq<string>, rule: LinkRule, resolve: string -> Option<string>): (r: Option<seq<string>>)
    ensures r.Some? ==> |r.value| <= |hrefs|
    ensures r.Some? ==> forall k :: 0 <= k < |r.value| ==> !(rule.dropAshx && IsAshx(r.value[k]))
  {
    if hrefs == [] then Some([])
    else
      match Candidates(hrefs[..|hrefs| - 1], rule, resolve)
      case None => None
      case Some(c) =>
        match LinkStep(rule, resolve, hrefs[|hrefs| - 1])
        case Skip => Some(c)
        case Add(url) => Some(c + [url])
        case Throw => None
  }

  /** What a JavaScript Set holds after adding the elements of `s` in order: each value
      once, in the order of its first insertion. */
  function Dedup(s: seq<string>): (d: seq<string>)
    ensures NoDuplicates(d)
    ensures forall x :: x in d <==> x in s
    ensures |d| <= |s|
  {
    if s == [] then []
    else
      var d := Dedup(s[..|s| - 1]);
      assert s == s[..|s| - 1] + [s[|s| - 1]];
      if s[|s| - 1] in d then d else d + [s[|s| - 1]]
  }

  /** Once a callback has thrown, the collection has failed whatever follows. */
  lemma {:induction false} CandidatesThrowIsFinal(hrefs: seq<string>, n: nat, rule: LinkRule, resolve: string -> Option<string>)
    requires n <= |hrefs| && Candidates(hrefs[..n], rule, resolve).None?
    ensures Candidates(hrefs, rule, resolve).None?
    decreases |hrefs| - n
  {
    if n < |hrefs| {
      assert hrefs[..n + 1][..n] == hrefs[..n];
      CandidatesThrowIsFinal(hrefs, n + 1, rule, resolve);
    } else {
      assert hrefs[..n] == hrefs;
    }
  }

  /** The collected candidates are exactly the resolved URLs of the selected, non-empty
      hrefs, minus the excluded `.ashx` endpoints; and the collection fails exactly when
      some selected, non-empty href does not resolve. */
  lemma {:induction false} CandidatesMembers(hrefs: seq<string>, rule: LinkRule, resolve: string -> Option<string>, u: string)
    ensures Candidates(hrefs, rule, resolve).None? <==>
      exists i :: 0 <= i < |hrefs| && Selected(rule, hrefs[i]) && hrefs[i] != "" && resolve(hrefs[i]).None?
    ensures Candidates(hrefs, rule, resolve).Some? ==>
      (u in Candidates(hrefs, rule, resolve).value <==>
        exists i :: 0 <= i < |hrefs| && Selected(rule, hrefs[i]) && hrefs[i] != "" &&
          resolve(hrefs[i]) == Some(u) && !(rule.dropAshx && IsAshx(u)))
  {
    if hrefs != [] {
      var init := hrefs[..|hrefs| - 1];
      CandidatesMembers(init, rule, resolve, u);
      assert forall i :: 0 <= i < |init| ==> init[i] == hrefs[i];
    }
  }

  /** The `.each` loop: each selected anchor's href, if non-empty, is resolved and, unless
      the rule drops it as an `.ashx` endpoint, added to the `links` Set. A throwing URL
      constructor aborts the loop and the result is None. */
  method CollectLinks(hrefs: seq<string>, rule: LinkRule, resolve: string -> Option<string>)
    returns (links: Option<seq<string>>)
    ensures links.None? <==> Candidates(hrefs, rule, resolve).None?
    ensures links.Some? ==> links.value == Dedup(Candidates(hrefs, rule, resolve).value)
  {
    var found: seq<string> := [];
    var i := 0;
    while i < |hrefs|
      invariant 0 <= i <= |hrefs|
      invariant Candidates(hrefs[..i], rule, resolve).Some?
      invariant found == Dedup(Candidates(hrefs[..i], rule, resolve).value)
    {
      var href := hrefs[i];
      assert hrefs[..i + 1][..i] == hrefs[..i];
      if Selected(rule, href) && href != "" {
        var resolved := resolve(href);
        if resolved.None? {
          CandidatesThrowIsFinal(hrefs, i + 1, rule, resolve);
          return None;
        }
        var url := resolved.value;
        if !(rule.dropAshx && IsAshx(url)) && url !in found {
          found := found + [url];
        }
      }
      i := i + 1;
    }
    assert hrefs[..i] == hrefs;
    links := Some(found);
  }

  // ---------------------------------------------------------------------------------
  // DM: the one flyer link

  /** An `<a>` element of the live DM page: its `href` attribute, and its `href` property
      as the browser resolves it. */
  datatype Anchor = Anchor(attr: string, href: string)

  /** `$$eval('a[href*="katalog.dm.hr"]', els => els.map(a => a.href))`. */
  function DmCatalogueLinks(anchors: seq<Anchor>): (links: seq<string>)
    ensures |links| <= |anchors|
    ensures forall u :: u in links <==>
      exists i :: 0 <= i < |anchors| && Contains(anchors[i].attr, "katalog.dm.hr") && anchors[i].href == u
  {
    if anchors == [] then []
    else
      var init := anchors[..|anchors| - 1];
      var last := anchors[|anchors| - 1];
      assert forall i :: 0 <= i < |init| ==> init[i] == anchors[i];
      DmCatalogueLinks(init) + (if Contains(last.attr, "katalog.dm.hr") then [last.href] else [])
  }

  /** `allLinks.find(u => u.endsWith('-web'))`: the first link ending in "-web", if any. */
  function FirstWebLink(links: seq<string>): (r: Option<string>)
    ensures r.None? <==> forall i :: 0 <= i < |links| ==> !EndsWith(links[i], "-web")
    ensures r.Some? ==> exists i :: 0 <= i < |links| && links[i] == r.value && EndsWith(r.value, "-web") &&
                                    (forall j :: 0 <= j < i ==> !EndsWith(links[j], "-web"))
  {
    var isWeb := (i: nat) => i < |links| && EndsWith(links[i], "-web");
    assert forall i: nat :: isWeb(i) == (i < |links| && EndsWith(links[i], "-web"));
    match FirstIndex(0, |links|, isWeb)
    case None => None
    case Some(i) => Some(links[i])
  }

  /** An anchor the DM run can take as its flyer: selected by `a[href*="katalog.dm.hr"]`,
      with a resolved href ending in "-web". */
  predicate DmWebAnchor(a: Anchor)
  {
    Contains(a.attr, "katalog.dm.hr") && EndsWith(a.href, "-web")
  }

  /** The first such anchor in document order, if any. */
  function FirstDmWebAnchor(anchors: seq<Anchor>): (r: Option<nat>)
    ensures r.Some? ==> r.value < |anchors| && DmWebAnchor(anchors[r.value])
    ensures r.Some? ==> forall j :: 0 <= j < r.value ==> !DmWebAnchor(anchors[j])
    ensures r.None? <==> forall j :: 0 <= j < |anchors| ==> !DmWebAnchor(anchors[j])
  {
    var isWeb := (i: nat) => i < |anchors| && DmWebAnchor(anchors[i]);
    assert forall i: nat :: isWeb(i) == (i < |anchors| && DmWebAnchor(anchors[i]));
    FirstIndex(0, |anchors|, isWeb)
  }

  /** A link that ends in "-web" and follows only links that do not is the one `find` returns. */
  lemma FirstWebLinkAt(links: seq<string>, i: nat)
    requires i < |links| && EndsWith(links[i], "-web")
    requires forall j :: 0 <= j < i ==> !EndsWith(links[j], "-web")
    ensures FirstWebLink(links) == Some(links[i])
  {
    var r := FirstWebLink(links);
    var k :| 0 <= k < |links| && links[k] == r.value && EndsWith(r.value, "-web") &&
             (forall j :: 0 <= j < k ==> !EndsWith(links[j], "-web"));
    assert k == i;
  }

  /** `find` on two lists joined: the first list's answer if it has one, else the second's. */
  lemma FirstWebLinkAppend(a: seq<string>, b: seq<string>)
    ensures FirstWebLink(a + b) == if FirstWebLink(a).Some? then FirstWebLink(a) else FirstWebLink(b)
  {
    var ab := a + b;
    assert forall j :: 0 <= j < |a| ==> ab[j] == a[j];
    assert forall j :: 0 <= j < |b| ==> ab[|a| + j] == b[j];
    if FirstWebLink(a).Some? {
      var i :| 0 <= i < |a| && a[i] == FirstWebLink(a).value && EndsWith(a[i], "-web") &&
               (forall j :: 0 <= j < i ==> !EndsWith(a[j], "-web"));
      FirstWebLinkAt(ab, i);
    } else if FirstWebLink(b).Some? {
      var i :| 0 <= i < |b| && b[i] == FirstWebLink(b).value && EndsWith(b[i], "-web") &&
               (forall j :: 0 <= j < i ==> !EndsWith(b[j], "-web"));
      forall j | 0 <= j < |a| + i
        ensures !EndsWith(ab[j], "-web")
      {
        if j >= |a| {
          assert ab[j] == b[j - |a|];
        }
      }
      FirstWebLinkAt(ab, |a| + i);
    } else {
      forall j | 0 <= j < |ab|
        ensures !EndsWith(ab[j], "-web")
      {
        if j >= |a| {
          assert ab[j] == b[j - |a|];
        }
      }
    }
  }

  /** One more anchor at the end changes the first "-web" anchor only when there was none. */
  lemma FirstDmWebAnchorSnoc(anchors: seq<Anchor>)
    requires anchors != []
    ensures var n := |anchors| - 1;
      FirstDmWebAnchor(anchors) ==
        if FirstDmWebAnchor(anchors[..n]).Some? then FirstDmWebAnchor(anchors[..n])
        else if DmWebAnchor(anchors[n]) then Some(n) else None
  {
    var n := |anchors| - 1;
    assert forall j :: 0 <= j < n ==> anchors[..n][j] == anchors[j];
  }

  /** `find` on a list of at most one link. */
  lemma FirstWebLinkShort(links: seq<string>)
    requires |links| <= 1
    ensures FirstWebLink(links) == if links != [] && EndsWith(links[0], "-web") then Some(links[0]) else None
  {
    if links != [] && EndsWith(links[0], "-web") {
      FirstWebLinkAt(links, 0);
    }
  }

  /** The DM flyer is the href of the first katalog.dm.hr anchor, in document order, whose
      href ends in "-web"; without one there is no flyer. `$$eval` keeps the anchors'
      order, so several "-web" links never give a later one. */
  lemma {:induction false} DmFlyerIsFirstWebAnchor(anchors: seq<Anchor>)
    ensures FirstWebLink(DmCatalogueLinks(anchors)) ==
      match FirstDmWebAnchor(anchors)
      case None => None
      case Some(i) => Some(anchors[i].href)
  {
    if anchors != [] {
      var n := |anchors| - 1;
      var init, last := anchors[..n], anchors[n];
      DmFlyerIsFirstWebAnchor(init);
      var ext := if Contains(last.attr, "katalog.dm.hr") then [last.href] else [];
      assert DmCatalogueLinks(anchors) == DmCatalogueLinks(init) + ext;
      FirstWebLinkAppend(DmCatalogueLinks(init), ext);
      FirstWebLinkShort(ext);
      FirstDmWebAnchorSnoc(anchors);
      if FirstDmWebAnchor(init).Some? {
        assert init[FirstDmWebAnchor(init).value] == anchors[FirstDmWebAnchor(init).value];
      }
    }
  }
}
