/** The GameStop marketplace adapter: link rewriting, the record mapping, and
    the offset/limit/totalNum pagination walk. */
module GameStop {
  import opened Wrappers
  import opened Text
  import opened Nft
  import opened Walks

  const StaticHost := "https://static.gstop-content.com"
  const IpfsGateway := "https://www.gstop-content.com/ipfs/"
  const TokenPage := "https://nft.gamestop.com/token/"
  /** Milliseconds waited after every page that does not end the walk. */
  const PageDelay: nat := 600

  /** A GameStop marketplace record (the fields the mapping reads). Timestamps
      are what parsing the record's date strings produced. */
  datatype GsAsset = GsAsset(
    tokenId: string,
    contractAddress: string,
    name: Option<string>,
    description: string,
    metadataJson: Meta,
    mediaUri: Option<string>,
    mediaThumbnailUri: Option<string>,
    createdAt: Option<int>,
    updatedAt: Option<int>)

  /** One page of `getNftsPaginated`. */
  datatype Navigable = Navigable(data: seq<GsAsset>, limit: int, offset: int, totalNum: int)

  /** The adapter's I/O, in order: a page request at an offset, or a wait. */
  datatype Call = Get(offset: int) | Wait(ms: nat)

  /** `getPublicLink`: internal `public/` and `ipfs://` links become public
      HTTPS links; everything else is returned as it is. */
  function GetPublicLink(link: string): (r: string)
    ensures StartsWith(link, "public/") ==> r == StaticHost + "/" + link[|"public/"|..]
    ensures !StartsWith(link, "public/") && StartsWith(link, "ipfs://") ==>
              r == IpfsGateway + link[|"ipfs://"|..]
    ensures !StartsWith(link, "public/") && !StartsWith(link, "ipfs://") ==> r == link
  {
    if StartsWith(link, "public/") then StaticHost + link[|"public"|..]
    else if StartsWith(link, "ipfs://") then IpfsGateway + link[|"ipfs://"|..]
    else link
  }

  /** A rewritten link is never rewritten again. */
  lemma PublicLinkIdempotent(link: string)
    ensures GetPublicLink(GetPublicLink(link)) == GetPublicLink(link)
  {
    var r := GetPublicLink(link);
    if StartsWith(link, "public/") || StartsWith(link, "ipfs://") {
      assert r[0] == 'h';
    }
  }

  /** The record literal `assetToNFT` builds, before its timestamp patch. */
  function Draft(asset: GsAsset, col: Collection): Asset {
    Asset(
      iid := asset.tokenId,
      image := GetPublicLink(Or(asset.mediaThumbnailUri, Or(asset.mediaUri, ""))),
      address := asset.contractAddress,
      name := Or(asset.name, ""),
      description := asset.description,
      owner := "",
      meta := asset.metadataJson,
      colId := col.id,
      url := TokenPage + col.address + "/" + asset.tokenId,
      updatedAt := ToDate(asset.updatedAt),
      createdAt := ToDate(asset.createdAt))
  }

  /** The normalised asset as a value. */
  function Normalized(asset: GsAsset, col: Collection, now: int): Asset {
    Patched(Draft(asset, col), now)
  }

  /** `assetToNFT` */
  method AssetToNFT(asset: GsAsset, col: Collection, now: int) returns (r: Asset)
    ensures r.iid == asset.tokenId && r.owner == "" && r.colId == col.id
    ensures r.name == Or(asset.name, "") && r.meta == asset.metadataJson
    ensures r.image == GetPublicLink(Or(asset.mediaThumbnailUri, Or(asset.mediaUri, "")))
    ensures r.url == TokenPage + col.address + "/" + asset.tokenId
    ensures HasValidDates(r)
    ensures asset.updatedAt.Some? ==> r.updatedAt == Date(asset.updatedAt.value)
    ensures asset.updatedAt.None? ==> r.updatedAt == Date(now)
    ensures asset.createdAt.Some? ==> r.createdAt == Date(asset.createdAt.value)
    ensures asset.createdAt.None? ==> r.createdAt == Date(now)
    ensures r == Normalized(asset, col, now)
  {
    r := PatchTimestamps(Draft(asset, col), now);
  }

  /** `data.data.map((item) => assetToNFT(item, collection))` as a value. */
  function NormalizedAll(items: seq<GsAsset>, col: Collection, now: int): (r: seq<Asset>)
    ensures |r| == |items|
  {
    seq(|items|, k requires 0 <= k < |items| => Normalized(items[k], col, now))
  }

  method MapAssets(items: seq<GsAsset>, col: Collection, now: int) returns (out: seq<Asset>)
    ensures out == NormalizedAll(items, col, now)
  {
    out := [];
    for k := 0 to |items|
      invariant out == NormalizedAll(items[..k], col, now)
    {
      var a := AssetToNFT(items[k], col, now);
      out := out + [a];
      assert items[..k + 1] == items[..k] + [items[k]];
    }
    assert items[..|items|] == items;
  }

  /** A reply ends the walk: the request was rejected, or it is a 200 whose
      body cannot be read, whose page is empty, or which reaches `totalNum`. */
  predicate Ends(reply: Reply<Navigable>) {
    match reply
    case Rejected => true
    case Reply(status, body) =>
      status == 200 &&
      (body.None? ||
       |body.value.data| == 0 ||
       body.value.offset + body.value.limit >= body.value.totalNum)
  }

  /** A well-behaved source: some reply among those the oracle can give ends
      the walk. */
  predicate Stops(replies: seq<Reply<Navigable>>) {
    exists j :: 0 <= j < |replies| && Ends(replies[j])
  }

  /** The number of the request whose reply ends the walk. */
  function StopIndex(replies: seq<Reply<Navigable>>, from: nat := 0): (j: nat)
    requires exists j :: from <= j < |replies| && Ends(replies[j])
    ensures from <= j < |replies| && Ends(replies[j])
    decreases |replies| - from
  {
    if Ends(replies[from]) then from else StopIndex(replies, from + 1)
  }

  /** `StopIndex` is the first reply that ends the walk. */
  lemma {:induction false} BeforeStop(replies: seq<Reply<Navigable>>, from: nat, k: nat)
    requires exists j :: from <= j < |replies| && Ends(replies[j])
    requires from <= k < StopIndex(replies, from)
    ensures !Ends(replies[k])
    decreases |replies| - from
  {
    if k > from {
      BeforeStop(replies, from + 1, k);
    }
  }

  /** A reply the adapter accepts: a 200 with a readable page. */
  predicate Accepts(reply: Reply<Navigable>) {
    reply.Reply? && reply.status == 200 && reply.body.Some?
  }

  /** The offset of the next request after `reply`: `data.offset + data.limit`
      after an accepted page, the same offset otherwise. */
  function NextOffset(reply: Reply<Navigable>, offset: int): int {
    if Accepts(reply) then reply.body.value.offset + reply.body.value.limit else offset
  }

  /** The offset of request number `k` (the first request is at offset 0). */
  function OffsetAt(replies: seq<Reply<Navigable>>, k: nat): int
    requires k <= |replies|
  {
    if k == 0 then 0 else NextOffset(replies[k - 1], OffsetAt(replies, k - 1))
  }

  /** The assets a reply contributes: its mapped items if accepted, nothing
      otherwise. */
  function PageItems(reply: Reply<Navigable>, col: Collection, now: int): seq<Asset> {
    if Accepts(reply) then NormalizedAll(reply.body.value.data, col, now) else []
  }

  /** In request order, the concatenation of what the first `n` replies contribute. */
  function Accepted(replies: seq<Reply<Navigable>>, n: nat, col: Collection, now: int): seq<Asset>
    requires n <= |replies|
  {
    if n == 0 then [] else Accepted(replies, n - 1, col, now) + PageItems(replies[n - 1], col, now)
  }

  /** What `all` resolves or rejects with. */
  function FetchAll(replies: seq<Reply<Navigable>>, col: Collection, now: int): Result<seq<Asset>, FetchError>
    requires Stops(replies)
  {
    var stop := StopIndex(replies);
    match replies[stop]
    case Rejected => Failure(RequestRejected)
    case Reply(_, body) =>
      if body.None? then Failure(MalformedBody) else Success(Accepted(replies, stop + 1, col, now))
  }

  lemma {:induction false} AcceptedBelongs(replies: seq<Reply<Navigable>>, n: nat, col: Collection, now: int)
    requires n <= |replies|
    ensures Belongs(Accepted(replies, n, col, now), col.id)
  {
    if n > 0 {
      AcceptedBelongs(replies, n - 1, col, now);
      PageBelongs(replies[n - 1], col, now);
      BelongsConcat(Accepted(replies, n - 1, col, now), PageItems(replies[n - 1], col, now), col.id);
    }
  }

  /** The assets of one page belong to the collection walked. */
  lemma PageBelongs(reply: Reply<Navigable>, col: Collection, now: int)
    ensures Belongs(PageItems(reply, col, now), col.id)
  {
    if Accepts(reply) {
      var items := reply.body.value.data;
      forall k | 0 <= k < |items|
        ensures NormalizedAll(items, col, now)[k] == Normalized(items[k], col, now)
      {
      }
    }
  }

  /** Whatever `all` resolves with belongs to the collection walked and has
      valid timestamps. */
  lemma FetchAllBelongs(replies: seq<Reply<Navigable>>, col: Collection, now: int)
    requires Stops(replies)
    ensures FetchAll(replies, col, now).Success? ==> Belongs(FetchAll(replies, col, now).value, col.id)
  {
    AcceptedBelongs(replies, StopIndex(replies) + 1, col, now);
  }

  /** The requests and waits of the first `n` requests that do not end the
      walk: each page request is followed by a wait. */
  function CallsBefore(replies: seq<Reply<Navigable>>, n: nat): (calls: seq<Call>)
    requires n <= |replies|
    ensures |calls| == 2 * n
  {
    if n == 0 then [] else CallsBefore(replies, n - 1) + [Get(OffsetAt(replies, n - 1)), Wait(PageDelay)]
  }

  lemma {:induction false} CallsBeforeAt(replies: seq<Reply<Navigable>>, n: nat, k: nat)
    requires n <= |replies| && k < n
    ensures CallsBefore(replies, n)[2 * k] == Get(OffsetAt(replies, k))
    ensures CallsBefore(replies, n)[2 * k + 1] == Wait(PageDelay)
  {
    if k < n - 1 {
      CallsBeforeAt(replies, n - 1, k);
    }
  }

  /** Why the reply that ends the walk makes `all` reject, if it does. */
  function EndError(reply: Reply<Navigable>): Option<FetchError> {
    if reply.Rejected? then Some(RequestRejected)
    else if reply.body.None? then Some(MalformedBody)
    else None
  }

  /** The loop of `all` unrolled: the walk from request `i` on, at `offset`. */
  function Walk(replies: seq<Reply<Navigable>>, i: nat, offset: int, col: Collection, now: int): Run<Call>
    requires i <= |replies|
    decreases |replies| - i
  {
    if i == |replies| then Run([], [], None)
    else
      var reply := replies[i];
      if Ends(reply) then Run(PageItems(reply, col, now), [Get(offset)], EndError(reply))
      else
        Prepend(PageItems(reply, col, now), [Get(offset), Wait(PageDelay)],
                Walk(replies, i + 1, NextOffset(reply, offset), col, now))
  }

  /** The unrolled loop agrees with the closed forms `FetchAll` and `CallLog`. */
  lemma WalkClosedForm(replies: seq<Reply<Navigable>>, col: Collection, now: int)
    requires Stops(replies)
    ensures var run := Walk(replies, 0, 0, col, now);
      Outcome(run) == FetchAll(replies, col, now) && run.calls == CallLog(replies)
  {
    WalkFrom(replies, 0, col, now);
    PrependNothing(Walk(replies, 0, 0, col, now));
    FetchAllCases(replies, col, now);
  }

  lemma {:induction false} WalkFrom(replies: seq<Reply<Navigable>>, i: nat, col: Collection, now: int)
    requires Stops(replies) && i <= StopIndex(replies)
    ensures var stop := StopIndex(replies);
      Prepend(Accepted(replies, i, col, now), CallsBefore(replies, i),
              Walk(replies, i, OffsetAt(replies, i), col, now))
      == Run(Accepted(replies, stop + 1, col, now), CallLog(replies), EndError(replies[stop]))
    decreases StopIndex(replies) - i
  {
    var stop := StopIndex(replies);
    var reply := replies[i];
    if i < stop {
      BeforeStop(replies, 0, i);
      var next := Walk(replies, i + 1, OffsetAt(replies, i + 1), col, now);
      assert Walk(replies, i, OffsetAt(replies, i), col, now)
          == Prepend(PageItems(reply, col, now), [Get(OffsetAt(replies, i)), Wait(PageDelay)], next);
      PrependPrepend(Accepted(replies, i, col, now), CallsBefore(replies, i),
                     PageItems(reply, col, now), [Get(OffsetAt(replies, i)), Wait(PageDelay)], next);
      assert Accepted(replies, i + 1, col, now) == Accepted(replies, i, col, now) + PageItems(reply, col, now);
      WalkFrom(replies, i + 1, col, now);
    } else {
      assert Walk(replies, i, OffsetAt(replies, i), col, now)
          == Run(PageItems(reply, col, now), [Get(OffsetAt(replies, i))], EndError(reply));
    }
  }

  /** One page that does not end the walk, taken off the front of `whole`. */
  lemma WalkAdvance(replies: seq<Reply<Navigable>>, i: nat, offset: int, col: Collection, now: int,
                    acc: seq<Asset>, calls: seq<Call>, whole: Run<Call>)
    requires i < |replies| && !Ends(replies[i])
    requires whole == Prepend(acc, calls, Walk(replies, i, offset, col, now))
    ensures whole == Prepend(acc + PageItems(replies[i], col, now), calls + [Get(offset)] + [Wait(PageDelay)],
                             Walk(replies, i + 1, NextOffset(replies[i], offset), col, now))
  {
    assert calls + [Get(offset)] + [Wait(PageDelay)] == calls + [Get(offset), Wait(PageDelay)];
    PrependPrepend(acc, calls, PageItems(replies[i], col, now), [Get(offset), Wait(PageDelay)],
                   Walk(replies, i + 1, NextOffset(replies[i], offset), col, now));
  }

  /** The page that ends the walk settles `whole`. */
  lemma WalkFinish(replies: seq<Reply<Navigable>>, i: nat, offset: int, col: Collection, now: int,
                   acc: seq<Asset>, calls: seq<Call>, whole: Run<Call>)
    requires i < |replies| && Ends(replies[i])
    requires whole == Prepend(acc, calls, Walk(replies, i, offset, col, now))
    ensures whole.calls == calls + [Get(offset)]
    ensures Outcome(whole) == match EndError(replies[i])
      case Some(e) => Failure(e)
      case None => Success(acc + PageItems(replies[i], col, now))
  {
  }

  /** `all`: walks the pages from offset 0, reply `k` of `replies` answering
      request `k`. Returns the outcome and the requests and waits it made. */
  method All(col: Collection, replies: seq<Reply<Navigable>>, now: int)
    returns (result: Result<seq<Asset>, FetchError>, calls: seq<Call>)
    requires Stops(replies)
    ensures result == FetchAll(replies, col, now)
    ensures calls == CallLog(replies)
  {
    var acc: seq<Asset> := [];
    var offset := 0;
    var i := 0;
    calls := [];
    result := Success([]);
    ghost var stop := StopIndex(replies);
    ghost var whole := Walk(replies, 0, 0, col, now);
    PrependNothing(whole);
    while true
      invariant i <= stop
      invariant whole == Prepend(acc, calls, Walk(replies, i, offset, col, now))
      decreases stop - i
    {
      var reply := replies[i];
      ghost var prev := offset;
      if Ends(reply) {
        WalkFinish(replies, i, offset, col, now, acc, calls, whole);
      } else {
        WalkAdvance(replies, i, offset, col, now, acc, calls, whole);
        assert i != stop;
      }
      calls := calls + [Get(offset)];
      if reply.Rejected? {
        result := Failure(RequestRejected);
        break;
      }
      if reply.status == 200 {
        if reply.body.None? {
          result := Failure(MalformedBody);
          break;
        }
        var page := reply.body.value;
        if |page.data| == 0 {
          assert acc + PageItems(reply, col, now) == acc;
          result := Success(acc);
          break;
        }
        var mapped := MapAssets(page.data, col, now);
        assert mapped == PageItems(reply, col, now);
        acc := acc + mapped;
        if page.offset + page.limit >= page.totalNum {
          result := Success(acc);
          break;
        }
        offset := page.offset + page.limit;
      } else {
        assert acc + PageItems(reply, col, now) == acc;
      }
      assert offset == NextOffset(reply, prev);
      calls := calls + [Wait(PageDelay)];
      i := i + 1;
    }
    WalkClosedForm(replies, col, now);
  }

  /** `FetchAll` by the kind of reply that ends the walk. */
  lemma FetchAllCases(replies: seq<Reply<Navigable>>, col: Collection, now: int)
    requires Stops(replies)
    ensures var stop := StopIndex(replies);
      FetchAll(replies, col, now) == Outcome<Call>(Run(Accepted(replies, stop + 1, col, now), [], EndError(replies[stop])))
  {
  }

  /** The requests and waits of a whole walk: the last request is not followed
      by a wait. */
  function CallLog(replies: seq<Reply<Navigable>>): seq<Call>
    requires Stops(replies)
  {
    CallsBefore(replies, StopIndex(replies)) + [Get(OffsetAt(replies, StopIndex(replies)))]
  }

  /** The walk makes one request more than the number of replies that do not
      end it; request `k` asks for `OffsetAt(replies, k)`, starting at 0; a
      600 ms wait separates consecutive requests and none follows the last. */
  lemma CallLogShape(replies: seq<Reply<Navigable>>)
    requires Stops(replies)
    ensures var calls := CallLog(replies);
      && |calls| == 2 * StopIndex(replies) + 1
      && calls[0] == Get(0)
      && calls[|calls| - 1].Get?
      && (forall k :: 0 <= k <= StopIndex(replies) ==> calls[2 * k] == Get(OffsetAt(replies, k)))
      && (forall k :: 0 <= k < StopIndex(replies) ==> calls[2 * k + 1] == Wait(PageDelay))
  {
    var stop := StopIndex(replies);
    var calls := CallLog(replies);
    var before := CallsBefore(replies, stop);
    forall k | 0 <= k <= stop
      ensures calls[2 * k] == Get(OffsetAt(replies, k))
    {
      if k < stop {
        CallsBeforeAt(replies, stop, k);
        assert calls[2 * k] == before[2 * k];
      } else {
        assert calls[2 * k] == calls[|before|];
      }
    }
    forall k | 0 <= k < stop
      ensures calls[2 * k + 1] == Wait(PageDelay)
    {
      CallsBeforeAt(replies, stop, k);
      assert calls[2 * k + 1] == before[2 * k + 1];
    }
    assert calls[2 * 0] == Get(OffsetAt(replies, 0));
  }

  /** A non-200 reply contributes nothing and does not move the walk on: after
      the wait, the same page is requested again. */
  lemma NonOkRetries(replies: seq<Reply<Navigable>>, k: nat, col: Collection, now: int)
    requires Stops(replies) && k < StopIndex(replies)
    requires replies[k].Reply? && replies[k].status != 200
    ensures OffsetAt(replies, k + 1) == OffsetAt(replies, k)
    ensures Accepted(replies, k + 1, col, now) == Accepted(replies, k, col, now)
    ensures var calls := CallLog(replies);
      calls[2 * k] == Get(OffsetAt(replies, k)) && calls[2 * k + 1] == Wait(PageDelay) && calls[2 * k + 2] == Get(OffsetAt(replies, k))
  {
    CallLogShape(replies);
    assert 2 * (k + 1) == 2 * k + 2;
    assert Accepted(replies, k, col, now) + [] == Accepted(replies, k, col, now);
  }
}
