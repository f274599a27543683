/** The OpenSea marketplace adapter: the record mapping and the walk that
    follows the `next` token. */
module OpenSea {
  import opened Wrappers
  import opened Text
  import opened Nft
  import opened Walks

  const AssetPage := "https://opensea.io/assets/ethereum/"

  /** An OpenSea v2 NFT record (the fields the mapping reads). Timestamps are
      what parsing the record's date strings produced. */
  datatype OsAsset = OsAsset(
    identifier: string,
    contract: string,
    tokenStandard: string,
    name: Option<string>,
    description: string,
    imageUrl: Option<string>,
    metadataUrl: string,
    createdAt: Option<int>,
    updatedAt: Option<int>,
    isDisabled: bool,
    isNsfw: bool)

  /** One page of the collection listing; `next` is missing on the last one. */
  datatype Navigable = Navigable(nfts: seq<OsAsset>, next: Option<string>)

  /** The adapter's I/O, in order: a page request carrying the `next` token
      and the `X-API-KEY` header, or a wait. */
  datatype Call = Get(next: string, apiKey: string) | Wait(ms: int)

  /** The `meta` object of a normalised asset. */
  function AssetMeta(asset: OsAsset): (m: Meta)
    ensures m.Keys == {"token_standard", "metadata_url", "is_disabled", "is_nsfw"}
    ensures m["token_standard"] == Str(asset.tokenStandard) && m["metadata_url"] == Str(asset.metadataUrl)
    ensures m["is_disabled"] == Bool(asset.isDisabled) && m["is_nsfw"] == Bool(asset.isNsfw)
  {
    map["token_standard" := Str(asset.tokenStandard),
        "metadata_url" := Str(asset.metadataUrl),
        "is_disabled" := Bool(asset.isDisabled),
        "is_nsfw" := Bool(asset.isNsfw)]
  }

  /** The record literal `assetToNFT` builds, before its timestamp patch. */
  function Draft(asset: OsAsset, col: Collection): Asset {
    Asset(
      iid := asset.identifier,
      image := Or(asset.imageUrl, ""),
      address := asset.contract,
      name := Or(asset.name, ""),
      description := asset.description,
      owner := "",
      meta := AssetMeta(asset),
      colId := col.id,
      url := AssetPage + col.address + "/" + asset.identifier,
      updatedAt := ToDate(asset.updatedAt),
      createdAt := ToDate(asset.createdAt))
  }

  /** The normalised asset as a value. */
  function Normalized(asset: OsAsset, col: Collection, now: int): Asset {
    Patched(Draft(asset, col), now)
  }

  /** `assetToNFT` */
  method AssetToNFT(asset: OsAsset, col: Collection, now: int) returns (r: Asset)
    ensures r.iid == asset.identifier && r.owner == "" && r.colId == col.id
    ensures r.address == asset.contract && r.description == asset.description
    ensures r.image == Or(asset.imageUrl, "") && r.name == Or(asset.name, "")
    ensures r.meta.Keys == {"token_standard", "metadata_url", "is_disabled", "is_nsfw"}
    ensures r.url == AssetPage + col.address + "/" + asset.identifier
    ensures HasValidDates(r)
    ensures asset.updatedAt.Some? ==> r.updatedAt == Date(asset.updatedAt.value)
    ensures asset.updatedAt.None? ==> r.updatedAt == Date(now)
    ensures asset.createdAt.Some? ==> r.createdAt == Date(asset.createdAt.value)
    ensures asset.createdAt.None? ==> r.createdAt == Date(now)
    ensures r == Normalized(asset, col, now)
  {
    r := PatchTimestamps(Draft(asset, col), now);
  }

  /** `data.nfts.map((item) => assetToNFT(item, collection))` as a value. */
  function NormalizedAll(items: seq<OsAsset>, col: Collection, now: int): (r: seq<Asset>)
    ensures |r| == |items|
  {
    seq(|items|, k requires 0 <= k < |items| => Normalized(items[k], col, now))
  }

  method MapAssets(items: seq<OsAsset>, col: Collection, now: int) returns (out: seq<Asset>)
    ensures out == NormalizedAll(items, col, now)
  {
    out := [];
    for k := 0 to |items|
      invariant out == NormalizedAll(items[..k], col, now)
    {
      var a := AssetToNFT(items[k], col, now);
      out := out + [a];
      assert items[..k + 1] == items[..k] + [items[k]];
    }
    assert items[..|items|] == items;
  }

  /** A reply ends the walk: the request was rejected, or it is a 200 whose
      body cannot be read or whose `next` is falsy. */
  predicate Ends(reply: Reply<Navigable>) {
    match reply
    case Rejected => true
    case Reply(status, body) => status == 200 && (body.None? || !Truthy(body.value.next))
  }

  /** A well-behaved source: some reply among those the oracle can give ends
      the walk. */
  predicate Stops(replies: seq<Reply<Navigable>>) {
    exists j :: 0 <= j < |replies| && Ends(replies[j])
  }

  /** The number of the request whose reply ends the walk. */
  function StopIndex(replies: seq<Reply<Navigable>>, from: nat := 0): (j: nat)
    requires exists j :: from <= j < |replies| && Ends(replies[j])
    ensures from <= j < |replies| && Ends(replies[j])
    decreases |replies| - from
  {
    if Ends(replies[from]) then from else StopIndex(replies, from + 1)
  }

  /** `StopIndex` is the first reply that ends the walk. */
  lemma {:induction false} BeforeStop(replies: seq<Reply<Navigable>>, from: nat, k: nat)
    requires exists j :: from <= j < |replies| && Ends(replies[j])
    requires from <= k < StopIndex(replies, from)
    ensures !Ends(replies[k])
    decreases |replies| - from
  {
    if k > from {
      BeforeStop(replies, from + 1, k);
    }
  }

  /** A reply the adapter accepts: a 200 with a readable page. */
  predicate Accepts(reply: Reply<Navigable>) {
    reply.Reply? && reply.status == 200 && reply.body.Some?
  }

  /** The token of the next request after `reply`: `data.next` after an
      accepted page that has one, the same token otherwise. */
  function NextToken(reply: Reply<Navigable>, next: string): string {
    if Accepts(reply) && Truthy(reply.body.value.next) then reply.body.value.next.value else next
  }

  /** The token of request number `k` (the first request sends the empty one). */
  function TokenAt(replies: seq<Reply<Navigable>>, k: nat): string
    requires k <= |replies|
  {
    if k == 0 then "" else NextToken(replies[k - 1], TokenAt(replies, k - 1))
  }

  /** The assets a reply contributes: every mapped item of an accepted page,
      even an empty one; nothing otherwise. */
  function PageItems(reply: Reply<Navigable>, col: Collection, now: int): seq<Asset> {
    if Accepts(reply) then NormalizedAll(reply.body.value.nfts, col, now) else []
  }

  /** In request order, the concatenation of what the first `n` replies contribute. */
  function Accepted(replies: seq<Reply<Navigable>>, n: nat, col: Collection, now: int): seq<Asset>
    requires n <= |replies|
  {
    if n == 0 then [] else Accepted(replies, n - 1, col, now) + PageItems(replies[n - 1], col, now)
  }

  /** Why the reply that ends the walk makes `all` reject, if it does. */
  function EndError(reply: Reply<Navigable>): Option<FetchError> {
    if reply.Rejected? then Some(RequestRejected)
    else if reply.body.None? then Some(MalformedBody)
    else None
  }

  /** What `all` resolves or rejects with. */
  function FetchAll(replies: seq<Reply<Navigable>>, col: Collection, now: int): Result<seq<Asset>, FetchError>
    requires Stops(replies)
  {
    var stop := StopIndex(replies);
    match replies[stop]
    case Rejected => Failure(RequestRejected)
    case Reply(_, body) =>
      if body.None? then Failure(MalformedBody) else Success(Accepted(replies, stop + 1, col, now))
  }

  lemma {:induction false} AcceptedBelongs(replies: seq<Reply<Navigable>>, n: nat, col: Collection, now: int)
    requires n <= |replies|
    ensures Belongs(Accepted(replies, n, col, now), col.id)
  {
    if n > 0 {
      AcceptedBelongs(replies, n - 1, col, now);
      PageBelongs(replies[n - 1], col, now);
      BelongsConcat(Accepted(replies, n - 1, col, now), PageItems(replies[n - 1], col, now), col.id);
    }
  }

  /** The assets of one page belong to the collection walked. */
  lemma PageBelongs(reply: Reply<Navigable>, col: Collection, now: int)
    ensures Belongs(PageItems(reply, col, now), col.id)
  {
    if Accepts(reply) {
      var items := reply.body.value.nfts;
      forall k | 0 <= k < |items|
        ensures NormalizedAll(items, col, now)[k] == Normalized(items[k], col, now)
      {
      }
    }
  }

  /** Whatever `all` resolves with belongs to the collection walked and has
      valid timestamps. */
  lemma FetchAllBelongs(replies: seq<Reply<Navigable>>, col: Collection, now: int)
    requires Stops(replies)
    ensures FetchAll(replies, col, now).Success? ==> Belongs(FetchAll(replies, col, now).value, col.id)
  {
    AcceptedBelongs(replies, StopIndex(replies) + 1, col, now);
  }

  /** `FetchAll` by the kind of reply that ends the walk. */
  lemma FetchAllCases(replies: seq<Reply<Navigable>>, col: Collection, now: int)
    requires Stops(replies)
    ensures var stop := StopIndex(replies);
      FetchAll(replies, col, now) == Outcome<Call>(Run(Accepted(replies, stop + 1, col, now), [], EndError(replies[stop])))
  {
  }

  /** The requests and waits of the first `n` requests that do not end the
      walk: each page request is followed by a wait. */
  function CallsBefore(replies: seq<Reply<Navigable>>, n: nat, apiKey: string, delay: int): (calls: seq<Call>)
    requires n <= |replies|
    ensures |calls| == 2 * n
  {
    if n == 0 then []
    else CallsBefore(replies, n - 1, apiKey, delay) + [Get(TokenAt(replies, n - 1), apiKey), Wait(delay)]
  }

  lemma {:induction false} CallsBeforeAt(replies: seq<Reply<Navigable>>, n: nat, k: nat, apiKey: string, delay: int)
    requires n <= |replies| && k < n
    ensures CallsBefore(replies, n, apiKey, delay)[2 * k] == Get(TokenAt(replies, k), apiKey)
    ensures CallsBefore(replies, n, apiKey, delay)[2 * k + 1] == Wait(delay)
  {
    if k < n - 1 {
      CallsBeforeAt(replies, n - 1, k, apiKey, delay);
    }
  }

  /** The requests and waits of a whole walk: the last request is not followed
      by a wait. */
  function CallLog(replies: seq<Reply<Navigable>>, apiKey: string, delay: int): seq<Call>
    requires Stops(replies)
  {
    var stop := StopIndex(replies);
    CallsBefore(replies, stop, apiKey, delay) + [Get(TokenAt(replies, stop), apiKey)]
  }

  /** The walk makes one request more than the number of replies that do not
      end it; request `k` sends `TokenAt(replies, k)`, starting with the empty
      token, and every request carries the API key; `delay` ms separate
      consecutive requests and no wait follows the last. */
  lemma CallLogShape(replies: seq<Reply<Navigable>>, apiKey: string, delay: int)
    requires Stops(replies)
    ensures var calls := CallLog(replies, apiKey, delay);
      && |calls| == 2 * StopIndex(replies) + 1
      && calls[0] == Get("", apiKey)
      && calls[|calls| - 1].Get?
      && (forall k :: 0 <= k <= StopIndex(replies) ==> calls[2 * k] == Get(TokenAt(replies, k), apiKey))
      && (forall k :: 0 <= k < StopIndex(replies) ==> calls[2 * k + 1] == Wait(delay))
  {
    var stop := StopIndex(replies);
    var calls := CallLog(replies, apiKey, delay);
    var before := CallsBefore(replies, stop, apiKey, delay);
    forall k | 0 <= k <= stop
      ensures calls[2 * k] == Get(TokenAt(replies, k), apiKey)
    {
      if k < stop {
        CallsBeforeAt(replies, stop, k, apiKey, delay);
        assert calls[2 * k] == before[2 * k];
      } else {
        assert calls[2 * k] == calls[|before|];
      }
    }
    forall k | 0 <= k < stop
      ensures calls[2 * k + 1] == Wait(delay)
    {
      CallsBeforeAt(replies, stop, k, apiKey, delay);
      assert calls[2 * k + 1] == before[2 * k + 1];
    }
    assert calls[2 * 0] == Get(TokenAt(replies, 0), apiKey);
  }

  /** The loop of `all` unrolled: the walk from request `i` on, with token `next`. */
  function Walk(replies: seq<Reply<Navigable>>, i: nat, next: string, col: Collection, now: int,
                apiKey: string, delay: int): Run<Call>
    requires i <= |replies|
    decreases |replies| - i
  {
    if i == |replies| then Run([], [], None)
    else
      var reply := replies[i];
      if Ends(reply) then Run(PageItems(reply, col, now), [Get(next, apiKey)], EndError(reply))
      else
        Prepend(PageItems(reply, col, now), [Get(next, apiKey), Wait(delay)],
                Walk(replies, i + 1, NextToken(reply, next), col, now, apiKey, delay))
  }

  lemma {:induction false} WalkFrom(replies: seq<Reply<Navigable>>, i: nat, col: Collection, now: int,
                                    apiKey: string, delay: int)
    requires Stops(replies) && i <= StopIndex(replies)
    ensures var stop := StopIndex(replies);
      Prepend(Accepted(replies, i, col, now), CallsBefore(replies, i, apiKey, delay),
              Walk(replies, i, TokenAt(replies, i), col, now, apiKey, delay))
      == Run(Accepted(replies, stop + 1, col, now), CallLog(replies, apiKey, delay), EndError(replies[stop]))
    decreases StopIndex(replies) - i
  {
    var stop := StopIndex(replies);
    var reply := replies[i];
    if i < stop {
      BeforeStop(replies, 0, i);
      var step := [Get(TokenAt(replies, i), apiKey), Wait(delay)];
      var next := Walk(replies, i + 1, TokenAt(replies, i + 1), col, now, apiKey, delay);
      assert Walk(replies, i, TokenAt(replies, i), col, now, apiKey, delay)
          == Prepend(PageItems(reply, col, now), step, next);
      PrependPrepend(Accepted(replies, i, col, now), CallsBefore(replies, i, apiKey, delay),
                     PageItems(reply, col, now), step, next);
      assert Accepted(replies, i + 1, col, now) == Accepted(replies, i, col, now) + PageItems(reply, col, now);
      WalkFrom(replies, i + 1, col, now, apiKey, delay);
    } else {
      assert Walk(replies, i, TokenAt(replies, i), col, now, apiKey, delay)
          == Run(PageItems(reply, col, now), [Get(TokenAt(replies, i), apiKey)], EndError(reply));
    }
  }

  /** The unrolled loop agrees with the closed forms `FetchAll` and `CallLog`. */
  lemma WalkClosedForm(replies: seq<Reply<Navigable>>, col: Collection, now: int, apiKey: string, delay: int)
    requires Stops(replies)
    ensures var run := Walk(replies, 0, "", col, now, apiKey, delay);
      Outcome(run) == FetchAll(replies, col, now) && run.calls == CallLog(replies, apiKey, delay)
  {
    WalkFrom(replies, 0, col, now, apiKey, delay);
    PrependNothing(Walk(replies, 0, "", col, now, apiKey, delay));
    FetchAllCases(replies, col, now);
  }

  /** One page that does not end the walk, taken off the front of `whole`. */
  lemma WalkAdvance(replies: seq<Reply<Navigable>>, i: nat, next: string, col: Collection, now: int,
                    apiKey: string, delay: int, acc: seq<Asset>, calls: seq<Call>, whole: Run<Call>)
    requires i < |replies| && !Ends(replies[i])
    requires whole == Prepend(acc, calls, Walk(replies, i, next, col, now, apiKey, delay))
    ensures whole == Prepend(acc + PageItems(replies[i], col, now), calls + [Get(next, apiKey)] + [Wait(delay)],
                             Walk(replies, i + 1, NextToken(replies[i], next), col, now, apiKey, delay))
  {
    assert calls + [Get(next, apiKey)] + [Wait(delay)] == calls + [Get(next, apiKey), Wait(delay)];
    PrependPrepend(acc, calls, PageItems(replies[i], col, now), [Get(next, apiKey), Wait(delay)],
                   Walk(replies, i + 1, NextToken(replies[i], next), col, now, apiKey, delay));
  }

  /** The page that ends the walk settles `whole`. */
  lemma WalkFinish(replies: seq<Reply<Navigable>>, i: nat, next: string, col: Collection, now: int,
                   apiKey: string, delay: int, acc: seq<Asset>, calls: seq<Call>, whole: Run<Call>)
    requires i < |replies| && Ends(replies[i])
    requires whole == Prepend(acc, calls, Walk(replies, i, next, col, now, apiKey, delay))
    ensures whole.calls == calls + [Get(next, apiKey)]
    ensures Outcome(whole) == match EndError(replies[i])
      case Some(e) => Failure(e)
      case None => Success(acc + PageItems(replies[i], col, now))
  {
  }

  /** `all`: walks the pages from the empty token, reply `k` of `replies`
      answering request `k`; `apiKey` and `delay` are the configured API key
      and delay. Returns the outcome and the requests and waits it made. */
  method All(col: Collection, replies: seq<Reply<Navigable>>, now: int, apiKey: string, delay: int)
    returns (result: Result<seq<Asset>, FetchError>, calls: seq<Call>)
    requires Stops(replies)
    ensures result == FetchAll(replies, col, now)
    ensures calls == CallLog(replies, apiKey, delay)
  {
    var acc: seq<Asset> := [];
    var next := "";
    var i := 0;
    calls := [];
    result := Success([]);
    ghost var stop := StopIndex(replies);
    ghost var whole := Walk(replies, 0, "", col, now, apiKey, delay);
    PrependNothing(whole);
    while true
      invariant i <= stop
      invariant whole == Prepend(acc, calls, Walk(replies, i, next, col, now, apiKey, delay))
      decreases stop - i
    {
      var reply := replies[i];
      ghost var prev := next;
      if Ends(reply) {
        WalkFinish(replies, i, next, col, now, apiKey, delay, acc, calls, whole);
      } else {
        WalkAdvance(replies, i, next, col, now, apiKey, delay, acc, calls, whole);
        assert i != stop;
      }
      calls := calls + [Get(next, apiKey)];
      if reply.Rejected? {
        result := Failure(RequestRejected);
        break;
      }
      if reply.status == 200 {
        if reply.body.None? {
          result := Failure(MalformedBody);
          break;
        }
        var page := reply.body.value;
        var mapped := MapAssets(page.nfts, col, now);
        assert mapped == PageItems(reply, col, now);
        acc := acc + mapped;
        if !Truthy(page.next) {
          result := Success(acc);
          break;
        }
        next := page.next.value;
      } else {
        assert acc + PageItems(reply, col, now) == acc;
      }
      assert next == NextToken(reply, prev);
      calls := calls + [Wait(delay)];
      i := i + 1;
    }
    WalkClosedForm(replies, col, now, apiKey, delay);
  }

  /** A non-200 reply contributes nothing and does not move the walk on: after
      the wait, the same page is requested again. */
  lemma NonOkRetries(replies: seq<Reply<Navigable>>, k: nat, col: Collection, now: int, apiKey: string, delay: int)
    requires Stops(replies) && k < StopIndex(replies)
    requires replies[k].Reply? && replies[k].status != 200
    ensures TokenAt(replies, k + 1) == TokenAt(replies, k)
    ensures Accepted(replies, k + 1, col, now) == Accepted(replies, k, col, now)
    ensures var calls := CallLog(replies, apiKey, delay);
      calls[2 * k] == Get(TokenAt(replies, k), apiKey) && calls[2 * k + 1] == Wait(delay) && calls[2 * k + 2] == Get(TokenAt(replies, k), apiKey)
  {
    CallLogShape(replies, apiKey, delay);
    assert 2 * (k + 1) == 2 * k + 2;
    assert Accepted(replies, k, col, now) + [] == Accepted(replies, k, col, now);
  }
}
