/** The common asset shape every marketplace adapter produces (the `Asset`
    table row without its id), the collection descriptor the adapters read, and
    the HTTP reply shape the adapters consume. */
module Nft {
  import opened Wrappers

  /** A value of a flat JSON metadata object. */
  datatype Scalar = Str(s: string) | Num(n: int) | Bool(b: bool)

  type Meta = map<string, Scalar>

  /** `AssetSource`: the marketplace a collection is listed on. */
  datatype Source = GAMESTOP | OPENSEA | IMX

  /** An `AssetCollection` row: its id, its marketplace, and the three external
      references (contract address, OpenSea slug, GameStop collection id). */
  datatype Collection = Collection(
    id: string,
    kind: Source,
    address: string,
    slug: string,
    iid: string,
    meta: Meta)

  /** A JavaScript `Date`: milliseconds since the epoch, or the Invalid Date
      that `new Date(s)` yields for a string it cannot parse. */
  datatype Date = Date(ms: int) | InvalidDate

  /** `new Date(s)`, given what parsing `s` produced. */
  function ToDate(parsed: Option<int>): (d: Date)
    ensures parsed.Some? <==> d.Date?
    ensures parsed.Some? ==> d.ms == parsed.value
  {
    match parsed
    case Some(ms) => Date(ms)
    case None => InvalidDate
  }

  /** A row of the asset snapshot table, as an adapter builds it. */
  datatype Asset = Asset(
    iid: string,
    image: string,
    address: string,
    name: string,
    description: string,
    owner: string,
    meta: Meta,
    colId: string,
    url: string,
    updatedAt: Date,
    createdAt: Date)

  /** The invariant every stored asset keeps: both timestamps are valid. */
  predicate HasValidDates(a: Asset) {
    a.updatedAt.Date? && a.createdAt.Date?
  }

  datatype DateKey = UpdatedAt | CreatedAt

  function Get(a: Asset, key: DateKey): Date {
    match key
    case UpdatedAt => a.updatedAt
    case CreatedAt => a.createdAt
  }

  function With(a: Asset, key: DateKey, d: Date): Asset {
    match key
    case UpdatedAt => a.(updatedAt := d)
    case CreatedAt => a.(createdAt := d)
  }

  /** A timestamp after the patch: kept when valid, the current time otherwise. */
  function ValidOrNow(d: Date, now: int): Date {
    if d.InvalidDate? then Date(now) else d
  }

  /** The record after the timestamp patch, as a value. */
  function Patched(a: Asset, now: int): (r: Asset)
    ensures HasValidDates(r)
    ensures a.updatedAt.Date? ==> r.updatedAt == a.updatedAt
    ensures a.createdAt.Date? ==> r.createdAt == a.createdAt
    ensures a.updatedAt.InvalidDate? ==> r.updatedAt == Date(now)
    ensures a.createdAt.InvalidDate? ==> r.createdAt == Date(now)
    ensures r.(updatedAt := a.updatedAt, createdAt := a.createdAt) == a
  {
    a.(updatedAt := ValidOrNow(a.updatedAt, now), createdAt := ValidOrNow(a.createdAt, now))
  }

  /** The `forEach` over `['updatedAt', 'createdAt']` that every adapter's
      `assetToNFT` runs: each key holding an Invalid Date gets the current time. */
  method PatchTimestamps(a: Asset, now: int) returns (r: Asset)
    ensures HasValidDates(r)
    ensures forall key :: Get(a, key).Date? ==> Get(r, key) == Get(a, key)
    ensures forall key :: Get(a, key).InvalidDate? ==> Get(r, key) == Date(now)
    ensures r.(updatedAt := a.updatedAt, createdAt := a.createdAt) == a
    ensures r == Patched(a, now)
  {
    var keys := [UpdatedAt, CreatedAt];
    r := a;
    for i := 0 to |keys|
      invariant forall j :: 0 <= j < i ==> Get(r, keys[j]) == ValidOrNow(Get(a, keys[j]), now)
      invariant forall j :: i <= j < |keys| ==> Get(r, keys[j]) == Get(a, keys[j])
      invariant r.(updatedAt := a.updatedAt, createdAt := a.createdAt) == a
    {
      if Get(r, keys[i]).InvalidDate? {
        r := With(r, keys[i], Date(now));
      }
    }
    assert Get(r, keys[0]) == ValidOrNow(a.updatedAt, now);
    assert Get(r, keys[1]) == ValidOrNow(a.createdAt, now);
  }

  /** What one `fetch` produced: a status and a parsed JSON body, or a rejected
      promise (unparseable JSON, or an error on the response stream). A body
      is `None` when the JSON lacks the fields the adapter reads, so that
      reading them throws. A failure before any response arrives is not a
      reply: it ends the process, and is not modelled. */
  datatype Reply<P> = Reply(status: int, body: Option<P>) | Rejected

  /** Why an adapter's `all` rejects. */
  datatype FetchError = RequestRejected | MalformedBody
}
