/** The `leaflets` collection as the scrapers use it: documents found by their `url` field
    and written with `updateOne({url}, {$set: {url, validFrom, validTo, chain, scrapedAt}},
    {upsert: true})`. The collection is a map from url to the document stored under it;
    other fields a document may carry (its `_id`) are not part of the model. */
module Store {
  import opened Records

  /** Every document is stored under its own url, so the collection never holds two
      documents for one url. */
  predicate KeyedByUrl(docs: map<string, Leaflet>)
  {
    forall u :: u in docs ==> docs[u].url == u
  }

  /** The upsert of one record: the document with the record's url gets all five `$set`
      fields, or is inserted when there was none; every other url keeps its document. */
  function Upserted(docs: map<string, Leaflet>, rec: Leaflet): (d: map<string, Leaflet>)
    ensures rec.url in d && d[rec.url] == rec
    ensures forall u :: u != rec.url ==> (u in d <==> u in docs)
    ensures forall u :: u != rec.url && u in docs ==> d[u] == docs[u]
  {
    docs[rec.url := rec]
  }

  /** An upsert keeps one document per url. */
  lemma UpsertedKeyed(docs: map<string, Leaflet>, rec: Leaflet)
    requires KeyedByUrl(docs)
    ensures KeyedByUrl(Upserted(docs, rec))
  {
  }

  /** Upserting an existing url does not grow the collection; a new url adds one document. */
  lemma UpsertedSize(docs: map<string, Leaflet>, rec: Leaflet)
    ensures |Upserted(docs, rec)| == if rec.url in docs then |docs| else |docs| + 1
  {
    var d := Upserted(docs, rec);
    if rec.url in docs {
      assert d.Keys == docs.Keys;
    } else {
      assert d.Keys == docs.Keys + {rec.url};
    }
  }

  /** Two upserts of the same url: the second one wins, whatever the first wrote. */
  lemma UpsertedLastWins(docs: map<string, Leaflet>, first: Leaflet, second: Leaflet)
    requires first.url == second.url
    ensures Upserted(Upserted(docs, first), second) == Upserted(docs, second)
  {
  }

  /** Upserts of different urls do not interfere, so their order does not matter. */
  lemma UpsertedCommute(docs: map<string, Leaflet>, a: Leaflet, b: Leaflet)
    requires a.url != b.url
    ensures Upserted(Upserted(docs, a), b) == Upserted(Upserted(docs, b), a)
  {
  }

  /** No two records of a plan share a url. */
  predicate DistinctUrls(plan: seq<Leaflet>)
  {
    forall i, j :: 0 <= i < j < |plan| ==> plan[i].url != plan[j].url
  }

  /** The collection after a run's write loop has tried to upsert the records of `plan` in
      order, where an `updateOne` for a url in `failing` throws, is caught, and writes
      nothing. */
  function ApplyWrites(docs: map<string, Leaflet>, plan: seq<Leaflet>, failing: set<string>): (d: map<string, Leaflet>)
    ensures docs.Keys <= d.Keys
    ensures |d| <= |docs| + |plan|
  {
    if plan == [] then docs
    else
      var before := ApplyWrites(docs, plan[..|plan| - 1], failing);
      var rec := plan[|plan| - 1];
      UpsertedSize(before, rec);
      if rec.url in failing then before else Upserted(before, rec)
  }

  /** One more record at the end of the plan is one more attempted upsert after the others. */
  lemma ApplyWritesSnoc(docs: map<string, Leaflet>, plan: seq<Leaflet>, rec: Leaflet, failing: set<string>)
    ensures ApplyWrites(docs, plan + [rec], failing) ==
      if rec.url in failing then ApplyWrites(docs, plan, failing) else Upserted(ApplyWrites(docs, plan, failing), rec)
  {
    assert (plan + [rec])[..|plan|] == plan;
  }

  /** A write loop keeps one document per url. */
  lemma {:induction false} ApplyWritesKeyed(docs: map<string, Leaflet>, plan: seq<Leaflet>, failing: set<string>)
    requires KeyedByUrl(docs)
    ensures KeyedByUrl(ApplyWrites(docs, plan, failing))
  {
    if plan != [] {
      ApplyWritesKeyed(docs, plan[..|plan| - 1], failing);
    }
  }

  /** What a write loop leaves under one url: the planned record when there is one and its
      write did not fail, the old document (or none) otherwise. A failing write costs only
      its own url. */
  lemma {:induction false} ApplyWritesLookup(docs: map<string, Leaflet>, plan: seq<Leaflet>, failing: set<string>, u: string)
    requires DistinctUrls(plan)
    ensures forall i :: 0 <= i < |plan| && plan[i].url == u && u !in failing ==>
      u in ApplyWrites(docs, plan, failing) && ApplyWrites(docs, plan, failing)[u] == plan[i]
    ensures (u in failing || forall i :: 0 <= i < |plan| ==> plan[i].url != u) ==>
      (u in ApplyWrites(docs, plan, failing) <==> u in docs) &&
      (u in docs ==> ApplyWrites(docs, plan, failing)[u] == docs[u])
  {
    if plan != [] {
      var init := plan[..|plan| - 1];
      assert forall i :: 0 <= i < |init| ==> init[i] == plan[i];
      ApplyWritesLookup(docs, init, failing, u);
    }
  }

  /** Every document after a write loop is either untouched or one of the planned records. */
  lemma {:induction false} ApplyWritesFromPlan(docs: map<string, Leaflet>, plan: seq<Leaflet>, failing: set<string>)
    ensures forall u :: u in ApplyWrites(docs, plan, failing) ==>
      (u in docs && ApplyWrites(docs, plan, failing)[u] == docs[u]) || ApplyWrites(docs, plan, failing)[u] in plan
  {
    if plan != [] {
      var init := plan[..|plan| - 1];
      ApplyWritesFromPlan(docs, init, failing);
      assert forall x :: x in init ==> x in plan;
    }
  }

  /** The `leaflets` collection the scrapers write to. */
  class LeafletStore {
    var docs: map<string, Leaflet>

    ghost predicate Valid()
      reads this
    {
      KeyedByUrl(docs)
    }

    constructor (initial: map<string, Leaflet>)
      requires KeyedByUrl(initial)
      ensures Valid() && docs == initial
    {
      docs := initial;
    }

    /** `updateOne({url: rec.url}, {$set: rec}, {upsert: true})` that succeeds. */
    method Upsert(rec: Leaflet)
      requires Valid()
      modifies this
      ensures Valid()
      ensures docs == Upserted(old(docs), rec)
    {
      docs := docs[rec.url := rec];
    }
  }
}
