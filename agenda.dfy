/** The `nfts:fetch` job: the adapter dispatch, the gathering of every
    collection's assets, and the run guard over the job record and the asset
    snapshot table. */
module Agenda {
  import opened Wrappers
  import opened Nft
  import opened Walks
  import GameStop
  import OpenSea
  import Imx

  /** The name the job is defined under. */
  const FetchJob := "nfts:fetch"

  /** What the marketplaces answer while one collection is walked: one reply
      oracle per adapter; only the adapter of the collection's kind reads its own. */
  datatype Feed = Feed(
    gamestop: seq<Reply<GameStop.Navigable>>,
    opensea: seq<Reply<OpenSea.Navigable>>,
    imx: seq<Reply<Imx.Navigable>>)

  /** The OpenSea settings `all` reads: the API key and the delay between pages. */
  datatype Settings = Settings(apiKey: string, delay: int)

  /** The oracle the collection's adapter reads ends its walk. */
  predicate WellBehaved(col: Collection, feed: Feed) {
    match col.kind
    case GAMESTOP => GameStop.Stops(feed.gamestop)
    case OPENSEA => OpenSea.Stops(feed.opensea)
    case IMX => Imx.Stops(feed.imx)
  }

  /** What `parseCollection(col)` settles with: the result of the `all` of the
      adapter for the collection's kind. */
  function Fetched(col: Collection, feed: Feed, now: int): Result<seq<Asset>, FetchError>
    requires WellBehaved(col, feed)
  {
    match col.kind
    case GAMESTOP => GameStop.FetchAll(feed.gamestop, col, now)
    case OPENSEA => OpenSea.FetchAll(feed.opensea, col, now)
    case IMX => Imx.FetchAll(feed.imx, col, now)
  }

  /** What a collection yields belongs to it and has valid timestamps. */
  lemma FetchedBelongs(col: Collection, feed: Feed, now: int)
    requires WellBehaved(col, feed)
    ensures Fetched(col, feed, now).Success? ==> Belongs(Fetched(col, feed, now).value, col.id)
  {
    match col.kind
    case GAMESTOP => GameStop.FetchAllBelongs(feed.gamestop, col, now);
    case OPENSEA => OpenSea.FetchAllBelongs(feed.opensea, col, now);
    case IMX => Imx.FetchAllBelongs(feed.imx, col, now);
  }

  /** `parseCollection`: the switch on the collection's marketplace. */
  method ParseCollection(col: Collection, feed: Feed, now: int, settings: Settings)
    returns (r: Result<seq<Asset>, FetchError>)
    requires WellBehaved(col, feed)
    ensures col.kind == GAMESTOP ==> r == GameStop.FetchAll(feed.gamestop, col, now)
    ensures col.kind == OPENSEA ==> r == OpenSea.FetchAll(feed.opensea, col, now)
    ensures col.kind == IMX ==> r == Imx.FetchAll(feed.imx, col, now)
    ensures r == Fetched(col, feed, now)
  {
    match col.kind
    case GAMESTOP =>
      var calls;
      r, calls := GameStop.All(col, feed.gamestop, now);
    case OPENSEA =>
      var calls;
      r, calls := OpenSea.All(col, feed.opensea, now, settings.apiKey, settings.delay);
    case IMX =>
      var calls;
      r, calls := Imx.All(col, feed.imx, now);
  }

  /** Every collection has a feed its adapter can finish. */
  predicate Fed(cols: seq<Collection>, feeds: seq<Feed>) {
    |feeds| == |cols| && forall k :: 0 <= k < |cols| ==> WellBehaved(cols[k], feeds[k])
  }

  /** `cols.map(parseCollection)`, settled: collection `k`'s result at `k`. */
  function Results(cols: seq<Collection>, feeds: seq<Feed>, now: int): (r: seq<Result<seq<Asset>, FetchError>>)
    requires Fed(cols, feeds)
    ensures |r| == |cols|
    ensures forall k :: 0 <= k < |cols| ==> r[k] == Fetched(cols[k], feeds[k], now)
  {
    seq(|cols|, k requires 0 <= k < |cols| && Fed(cols, feeds) => Fetched(cols[k], feeds[k], now))
  }

  /** One more collection's result joined to those before it: the earlier
      error wins, then this one's, else the assets are appended. */
  function Combine(acc: Result<seq<Asset>, FetchError>, part: Result<seq<Asset>, FetchError>): Result<seq<Asset>, FetchError> {
    match acc
    case Failure(e) => Failure(e)
    case Success(xs) =>
      match part
      case Failure(e) => Failure(e)
      case Success(ys) => Success(xs + ys)
  }

  /** `Promise.all` followed by `.flat()`: the concatenation of the assets of
      every result in order, or the first error. */
  function Flat(parts: seq<Result<seq<Asset>, FetchError>>): Result<seq<Asset>, FetchError> {
    if |parts| == 0 then Success([]) else Combine(Flat(parts[..|parts| - 1]), parts[|parts| - 1])
  }

  /** Flattening succeeds exactly when every result does. */
  lemma {:induction false} FlatSucceeds(parts: seq<Result<seq<Asset>, FetchError>>)
    ensures Flat(parts).Success? <==> forall k :: 0 <= k < |parts| ==> parts[k].Success?
  {
    if |parts| > 0 {
      var init := parts[..|parts| - 1];
      FlatSucceeds(init);
      assert forall k :: 0 <= k < |init| ==> init[k] == parts[k];
    }
  }

  /** The assets of earlier results come first: flattening a prefix of the
      results yields a prefix of the assets. */
  lemma {:induction false} FlatPrefix(parts: seq<Result<seq<Asset>, FetchError>>, m: nat)
    requires m <= |parts|
    requires Flat(parts).Success?
    ensures Flat(parts[..m]).Success? && Flat(parts[..m]).value <= Flat(parts).value
    decreases |parts| - m
  {
    if m < |parts| {
      var init := parts[..|parts| - 1];
      assert init[..m] == parts[..m];
      FlatPrefix(init, m);
    } else {
      assert parts[..m] == parts;
    }
  }

  /** Every asset is a listed collection's and has valid timestamps. */
  predicate FromCollections(items: seq<Asset>, cols: seq<Collection>) {
    forall i :: 0 <= i < |items| ==>
      HasValidDates(items[i]) && exists k :: 0 <= k < |cols| && items[i].colId == cols[k].id
  }

  /** When every successful result belongs to a listed collection, so does
      their flattening. */
  lemma {:induction false} FlatFromCollections(parts: seq<Result<seq<Asset>, FetchError>>, cols: seq<Collection>)
    requires forall k :: 0 <= k < |parts| && parts[k].Success? ==> FromCollections(parts[k].value, cols)
    ensures Flat(parts).Success? ==> FromCollections(Flat(parts).value, cols)
  {
    if |parts| > 0 && Flat(parts).Success? {
      var init := parts[..|parts| - 1];
      assert forall k :: 0 <= k < |init| ==> init[k] == parts[k];
      FlatFromCollections(init, cols);
      var xs := Flat(init).value;
      var ys := parts[|parts| - 1].value;
      assert FromCollections(ys, cols);
      var all := Flat(parts).value;
      assert all == xs + ys;
      forall i | 0 <= i < |all|
        ensures HasValidDates(all[i]) && exists k :: 0 <= k < |cols| && all[i].colId == cols[k].id
      {
        if i < |xs| {
          assert all[i] == xs[i];
        } else {
          assert all[i] == ys[i - |xs|];
        }
      }
    }
  }

  /** Every collection's successful result belongs to it. */
  lemma ResultsBelong(cols: seq<Collection>, feeds: seq<Feed>, now: int)
    requires Fed(cols, feeds)
    ensures var parts := Results(cols, feeds, now);
      forall k :: 0 <= k < |parts| && parts[k].Success? ==> FromCollections(parts[k].value, cols)
  {
    var parts := Results(cols, feeds, now);
    forall k | 0 <= k < |parts| && parts[k].Success?
      ensures FromCollections(parts[k].value, cols)
    {
      FetchedBelongs(cols[k], feeds[k], now);
    }
  }

  /** What the handler gathers from the collections. */
  function Gathered(cols: seq<Collection>, feeds: seq<Feed>, now: int): Result<seq<Asset>, FetchError>
    requires Fed(cols, feeds)
  {
    Flat(Results(cols, feeds, now))
  }

  /** Everything gathered comes from the collections gathered. */
  lemma GatheredFromCollections(cols: seq<Collection>, feeds: seq<Feed>, now: int)
    requires Fed(cols, feeds)
    ensures Gathered(cols, feeds, now).Success? ==> FromCollections(Gathered(cols, feeds, now).value, cols)
  {
    ResultsBelong(cols, feeds, now);
    FlatFromCollections(Results(cols, feeds, now), cols);
  }

  /** `(await Promise.all(cols.map(parseCollection))).flat()`, the adapters
      run one after the other. */
  method Gather(cols: seq<Collection>, feeds: seq<Feed>, now: int, settings: Settings)
    returns (r: Result<seq<Asset>, FetchError>)
    requires Fed(cols, feeds)
    ensures r == Gathered(cols, feeds, now)
  {
    ghost var parts := Results(cols, feeds, now);
    r := Success([]);
    for k := 0 to |cols|
      invariant r == Flat(parts[..k])
    {
      var part := ParseCollection(cols[k], feeds[k], now, settings);
      assert parts[..k + 1][..k] == parts[..k];
      r := Combine(r, part);
    }
    assert parts[..|cols|] == parts;
  }

  /** The attributes of a stored job that the handler reads and writes. */
  datatype JobAttrs = JobAttrs(name: string, disabled: bool)

  /** A database write or read of the handler, in order. */
  datatype Event =
    | SaveJob(job: nat, disabled: bool)
    | FindCollections
    | DeleteAssets
    | CreateAssets(count: nat)

  /** The asset table after a run: replaced by what was gathered when the run
      was not skipped and gathering succeeded, untouched otherwise. */
  function Snapshot(before: seq<Asset>, skipped: bool, gathered: Result<seq<Asset>, FetchError>): (r: seq<Asset>)
    ensures !skipped && gathered.Success? ==> r == gathered.value
    ensures skipped || gathered.Failure? ==> r == before
  {
    if skipped || gathered.Failure? then before else gathered.value
  }

  /** The database operations of a run of the handler on job `j`. */
  function RunEvents(j: nat, skipped: bool, gathered: Result<seq<Asset>, FetchError>): (r: seq<Event>)
    ensures skipped ==> r == []
    ensures !skipped ==> |r| >= 3 && r[0] == SaveJob(j, true) && r[1] == FindCollections && r[|r| - 1] == SaveJob(j, false)
    ensures !skipped && gathered.Success? ==> r[2..|r| - 1] == [DeleteAssets, CreateAssets(|gathered.value|)]
    ensures !skipped && gathered.Failure? ==> |r| == 3
  {
    if skipped then []
    else if gathered.Failure? then [SaveJob(j, true), FindCollections, SaveJob(j, false)]
    else [SaveJob(j, true), FindCollections, DeleteAssets, CreateAssets(|gathered.value|), SaveJob(j, false)]
  }

  /** The job store and the tables the handler reads and writes. */
  class Scheduler {
    var jobs: seq<JobAttrs>
    var collections: seq<Collection>
    var assets: seq<Asset>
    /** The reads and writes done so far, in order. */
    var journal: seq<Event>

    /** Every stored asset comes from a stored collection and has valid timestamps. */
    ghost predicate Consistent()
      reads this
    {
      FromCollections(assets, collections)
    }

    constructor (jobs: seq<JobAttrs>, collections: seq<Collection>)
      ensures this.jobs == jobs && this.collections == collections
      ensures assets == [] && journal == [] && Consistent()
    {
      this.jobs := jobs;
      this.collections := collections;
      assets := [];
      journal := [];
    }

    /** `getJob(name)`: the index of the first job with that name. */
    function GetJob(name: string): (r: Option<nat>)
      reads this
      ensures r.Some? ==> r.value < |jobs| && jobs[r.value].name == name
      ensures r.Some? ==> forall k :: 0 <= k < r.value ==> jobs[k].name != name
      ensures r.None? ==> forall k :: 0 <= k < |jobs| ==> jobs[k].name != name
    {
      FirstNamed(jobs, name)
    }

    /** `job.disable().save()`, or `job.enable().save()`. */
    method SaveJob(j: nat, disabled: bool)
      requires j < |jobs|
      modifies this
      ensures jobs == old(jobs)[j := old(jobs)[j].(disabled := disabled)]
      ensures journal == old(journal) + [Event.SaveJob(j, disabled)]
      ensures collections == old(collections) && assets == old(assets)
    {
      jobs := jobs[j := jobs[j].(disabled := disabled)];
      journal := journal + [Event.SaveJob(j, disabled)];
    }

    /** `deleteMany` then `createMany`: the table becomes exactly `items`. */
    method Replace(items: seq<Asset>)
      modifies this
      ensures assets == items
      ensures journal == old(journal) + [DeleteAssets, CreateAssets(|items|)]
      ensures jobs == old(jobs) && collections == old(collections)
    {
      assets := [];
      journal := journal + [DeleteAssets];
      assets := assets + items;
      journal := journal + [CreateAssets(|items|)];
    }

    /** The `nfts:fetch` handler run on job `j`; `feeds[k]` is what the
        marketplaces answer while collection `k` is walked. */
    method Fetch(j: nat, feeds: seq<Feed>, now: int, settings: Settings)
      requires j < |jobs|
      requires Fed(collections, feeds)
      requires Consistent()
      modifies this
      ensures Consistent()
      ensures jobs == old(jobs) && collections == old(collections)
      ensures assets == Snapshot(old(assets), old(jobs)[j].disabled, Gathered(old(collections), feeds, now))
      ensures journal == old(journal) + RunEvents(j, old(jobs)[j].disabled, Gathered(old(collections), feeds, now))
    {
      if jobs[j].disabled {
        return;
      }
      ghost var before := journal;
      SaveJob(j, true);
      var cols := collections;
      journal := journal + [FindCollections];
      var nfts := Gather(cols, feeds, now, settings);
      if nfts.Success? {
        GatheredFromCollections(cols, feeds, now);
        Replace(nfts.value);
        assert journal == before + [Event.SaveJob(j, true), FindCollections, DeleteAssets, CreateAssets(|nfts.value|)];
      } else {
        assert journal == before + [Event.SaveJob(j, true), FindCollections];
      }
      SaveJob(j, false);
    }
  }

  function FirstNamed(jobs: seq<JobAttrs>, name: string): (r: Option<nat>)
    ensures r.Some? ==> r.value < |jobs| && jobs[r.value].name == name
    ensures r.Some? ==> forall k :: 0 <= k < r.value ==> jobs[k].name != name
    ensures r.None? ==> forall k :: 0 <= k < |jobs| ==> jobs[k].name != name
  {
    if |jobs| == 0 then None
    else if jobs[0].name == name then Some(0)
    else match FirstNamed(jobs[1..], name)
      case None => None
      case Some(k) => Some(k + 1)
  }
}
