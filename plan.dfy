/** The write loop shared by the SPAR/Interspar and Lidl runs: `for (const url of links)`
    decodes each url into a record (or skips it) and upserts the record in a `try` whose
    `catch` logs the error and goes on. The decoding is a parameter here, so the loop is
    stated once for both runs. */
module Plan {
  import opened Text
  import opened Records
  import opened Store

  /** A decoding that builds the record of a url under that same url. */
  ghost predicate KeepsUrl(decode: string -> Option<Leaflet>)
  {
    forall u :: decode(u).Some? ==> decode(u).value.url == u
  }

  /** The records a write loop sets out to upsert, in the order of its links. */
  function Planned(links: seq<string>, decode: string -> Option<Leaflet>): (plan: seq<Leaflet>)
    ensures |plan| <= |links|
  {
    if links == [] then []
    else
      Planned(links[..|links| - 1], decode) +
        (match decode(links[|links| - 1]) case None => [] case Some(r) => [r])
  }

  /** The plan of the first i + 1 links: the plan of the first i, then the record of link
      i if it decodes. */
  lemma PlannedStep(links: seq<string>, i: nat, decode: string -> Option<Leaflet>)
    requires i < |links|
    ensures decode(links[i]).None? ==> Planned(links[..i + 1], decode) == Planned(links[..i], decode)
    ensures decode(links[i]).Some? ==>
      Planned(links[..i + 1], decode) == Planned(links[..i], decode) + [decode(links[i]).value]
  {
    assert links[..i + 1][..i] == links[..i];
  }

  /** Every planned record is the one its url decodes to, and its url is one of the links. */
  lemma {:induction false} PlannedSound(links: seq<string>, decode: string -> Option<Leaflet>)
    requires KeepsUrl(decode)
    ensures forall r :: r in Planned(links, decode) ==> r.url in links && decode(r.url) == Some(r)
  {
    if links != [] {
      var n := |links| - 1;
      PlannedSound(links[..n], decode);
      assert links[..n + 1] == links;
      assert forall x :: x in links[..n] ==> x in links;
      PlannedStep(links, n, decode);
    }
  }

  /** Every url among the first i links that decodes has its record in their plan. */
  lemma {:induction false} PlannedCompleteUpTo(links: seq<string>, i: nat, decode: string -> Option<Leaflet>)
    requires i <= |links|
    ensures forall j :: 0 <= j < i && decode(links[j]).Some? ==> decode(links[j]).value in Planned(links[..i], decode)
  {
    if i > 0 {
      PlannedCompleteUpTo(links, i - 1, decode);
      PlannedStep(links, i - 1, decode);
    }
  }

  /** Every link that decodes has its record in the plan. */
  lemma PlannedComplete(links: seq<string>, decode: string -> Option<Leaflet>)
    ensures forall j :: 0 <= j < |links| && decode(links[j]).Some? ==> decode(links[j]).value in Planned(links, decode)
  {
    PlannedCompleteUpTo(links, |links|, decode);
    assert links[..|links|] == links;
  }

  /** Links without repeats give a plan without repeated urls. */
  lemma {:induction false} PlannedDistinct(links: seq<string>, decode: string -> Option<Leaflet>)
    requires KeepsUrl(decode) && NoDuplicates(links)
    ensures DistinctUrls(Planned(links, decode))
  {
    if links != [] {
      var n := |links| - 1;
      var init := links[..n];
      assert forall i :: 0 <= i < |init| ==> init[i] == links[i];
      PlannedDistinct(init, decode);
      PlannedSound(init, decode);
      assert links[..n + 1] == links;
      PlannedStep(links, n, decode);
      assert links[n] !in init;
    }
  }

  /** After the write loop, a link that decodes and whose write did not fail holds its
      record; every other url keeps its old document (or stays absent). */
  lemma WrittenLookup(docs: map<string, Leaflet>, links: seq<string>, decode: string -> Option<Leaflet>,
                      failing: set<string>, u: string)
    requires KeepsUrl(decode) && NoDuplicates(links)
    ensures var after := ApplyWrites(docs, Planned(links, decode), failing);
      var written := u in links && decode(u).Some? && u !in failing;
      (written ==> u in after && Some(after[u]) == decode(u)) &&
      (!written ==> (u in after <==> u in docs) && (u in docs ==> after[u] == docs[u]))
  {
    var plan := Planned(links, decode);
    PlannedDistinct(links, decode);
    PlannedSound(links, decode);
    PlannedComplete(links, decode);
    ApplyWritesLookup(docs, plan, failing, u);
    if u in links && decode(u).Some? {
      var j :| 0 <= j < |links| && links[j] == u;
      var k :| 0 <= k < |plan| && plan[k] == decode(links[j]).value;
    }
  }

  /** The write loop: each link is decoded and its record upserted; a throwing
      `updateOne` is caught and the loop goes on with the next link. */
  method WriteLeaflets(store: LeafletStore, links: seq<string>, decode: string -> Option<Leaflet>, failing: set<string>)
    requires store.Valid()
    modifies store
    ensures store.Valid()
    ensures store.docs == ApplyWrites(old(store.docs), Planned(links, decode), failing)
  {
    ghost var initial := store.docs;
    ghost var plan: seq<Leaflet> := [];
    var i := 0;
    while i < |links|
      invariant 0 <= i <= |links|
      invariant store.Valid()
      invariant plan == Planned(links[..i], decode)
      invariant store.docs == ApplyWrites(initial, plan, failing)
    {
      var url := links[i];
      PlannedStep(links, i, decode);
      var entry := decode(url);
      // a url in `failing` makes updateOne throw: the error is logged and nothing is written
      if entry.Some? {
        var rec := entry.value;
        ApplyWritesSnoc(initial, plan, rec, failing);
        plan := plan + [rec];
        if rec.url !in failing {
          store.Upsert(rec);
        }
      }
      i := i + 1;
    }
    assert links[..i] == links;
  }
}
