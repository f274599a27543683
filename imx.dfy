/** The Immutable X adapter: the record mapping and the walk that follows the
    `cursor`, without checking statuses and without waiting between pages. */
module Imx {
  import opened Wrappers
  import opened Text
  import opened Nft
  import opened Walks

  const AssetPage := "https://market.immutable.com/collections/"

  /** An Immutable X asset record (the fields the mapping reads). Timestamps
      are what parsing the record's date strings produced. */
  datatype ImxAsset = ImxAsset(
    tokenAddress: string,
    tokenId: string,
    user: string,
    name: Option<string>,
    description: string,
    imageUrl: Option<string>,
    metadata: Meta,
    createdAt: Option<int>,
    updatedAt: Option<int>)

  /** One page of `/v1/assets`; `cursor` may be missing. */
  datatype Navigable = Navigable(result: seq<ImxAsset>, cursor: Option<string>)

  /** The adapter's I/O: page requests, each carrying the cursor text. */
  datatype Call = Get(cursor: string)

  /** The record literal `assetToNFT` builds, before its timestamp patch. */
  function Draft(asset: ImxAsset, col: Collection): Asset {
    Asset(
      iid := asset.tokenId,
      image := Or(asset.imageUrl, ""),
      address := asset.tokenAddress,
      name := Or(asset.name, ""),
      description := asset.description,
      owner := asset.user,
      meta := asset.metadata,
      colId := col.id,
      url := AssetPage + col.address + "/assets/" + asset.tokenId,
      updatedAt := ToDate(asset.updatedAt),
      createdAt := ToDate(asset.createdAt))
  }

  /** The normalised asset as a value. */
  function Normalized(asset: ImxAsset, col: Collection, now: int): Asset {
    Patched(Draft(asset, col), now)
  }

  /** `assetToNFT` */
  method AssetToNFT(asset: ImxAsset, col: Collection, now: int) returns (r: Asset)
    ensures r.iid == asset.tokenId && r.owner == asset.user && r.colId == col.id
    ensures r.address == asset.tokenAddress && r.description == asset.description
    ensures r.image == Or(asset.imageUrl, "") && r.name == Or(asset.name, "")
    ensures r.meta == asset.metadata
    ensures r.url == AssetPage + col.address + "/assets/" + asset.tokenId
    ensures HasValidDates(r)
    ensures asset.updatedAt.Some? ==> r.updatedAt == Date(asset.updatedAt.value)
    ensures asset.updatedAt.None? ==> r.updatedAt == Date(now)
    ensures asset.createdAt.Some? ==> r.createdAt == Date(asset.createdAt.value)
    ensures asset.createdAt.None? ==> r.createdAt == Date(now)
    ensures r == Normalized(asset, col, now)
  {
    r := PatchTimestamps(Draft(asset, col), now);
  }

  /** `data.result.map((item) => assetToNFT(item, collection))` as a value. */
  function NormalizedAll(items: seq<ImxAsset>, col: Collection, now: int): (r: seq<Asset>)
    ensures |r| == |items|
  {
    seq(|items|, k requires 0 <= k < |items| => Normalized(items[k], col, now))
  }

  method MapAssets(items: seq<ImxAsset>, col: Collection, now: int) returns (out: seq<Asset>)
    ensures out == NormalizedAll(items, col, now)
  {
    out := [];
    for k := 0 to |items|
      invariant out == NormalizedAll(items[..k], col, now)
    {
      var a := AssetToNFT(items[k], col, now);
      out := out + [a];
      assert items[..k + 1] == items[..k] + [items[k]];
    }
    assert items[..|items|] == items;
  }

  /** A reply ends the walk: the request was rejected, the body cannot be read
      (whatever the status), or `result` is empty. */
  predicate Ends(reply: Reply<Navigable>) {
    !Readable(reply) || |reply.body.value.result| == 0
  }

  /** A reply whose body can be read. */
  predicate Readable(reply: Reply<Navigable>) {
    reply.Reply? && reply.body.Some?
  }

  /** A well-behaved source: some reply among those the oracle can give ends
      the walk. */
  predicate Stops(replies: seq<Reply<Navigable>>) {
    exists j :: 0 <= j < |replies| && Ends(replies[j])
  }

  /** The number of the request whose reply ends the walk. */
  function StopIndex(replies: seq<Reply<Navigable>>, from: nat := 0): (j: nat)
    requires exists j :: from <= j < |replies| && Ends(replies[j])
    ensures from <= j < |replies| && Ends(replies[j])
    decreases |replies| - from
  {
    if Ends(replies[from]) then from else StopIndex(replies, from + 1)
  }

  /** `StopIndex` is the first reply that ends the walk. */
  lemma {:induction false} BeforeStop(replies: seq<Reply<Navigable>>, from: nat, k: nat)
    requires exists j :: from <= j < |replies| && Ends(replies[j])
    requires from <= k < StopIndex(replies, from)
    ensures !Ends(replies[k])
    decreases |replies| - from
  {
    if k > from {
      BeforeStop(replies, from + 1, k);
    }
  }

  /** The cursor text of the next request: `${data.cursor}`, which is
      `undefined` when the field is missing. */
  function CursorText(cursor: Option<string>): string {
    if cursor.Some? then cursor.value else "undefined"
  }

  /** The cursor text of the request after `reply`: only a readable page can
      be followed (any other reply ends the walk). */
  function NextCursor(reply: Reply<Navigable>, cursor: string): string {
    if Readable(reply) then CursorText(reply.body.value.cursor) else cursor
  }

  /** The cursor text of request number `k` (the first request sends the empty one). */
  function CursorAt(replies: seq<Reply<Navigable>>, k: nat): string
    requires k <= |replies|
  {
    if k == 0 then "" else NextCursor(replies[k - 1], CursorAt(replies, k - 1))
  }

  /** The assets a reply contributes: the mapped items of a readable page,
      whatever its status; nothing otherwise. */
  function PageItems(reply: Reply<Navigable>, col: Collection, now: int): seq<Asset> {
    if Readable(reply) then NormalizedAll(reply.body.value.result, col, now) else []
  }

  /** In request order, the concatenation of what the first `n` replies contribute. */
  function Accepted(replies: seq<Reply<Navigable>>, n: nat, col: Collection, now: int): seq<Asset>
    requires n <= |replies|
  {
    if n == 0 then [] else Accepted(replies, n - 1, col, now) + PageItems(replies[n - 1], col, now)
  }

  /** Why the reply that ends the walk makes `all` reject, if it does. */
  function EndError(reply: Reply<Navigable>): Option<FetchError> {
    if reply.Rejected? then Some(RequestRejected)
    else if reply.body.None? then Some(MalformedBody)
    else None
  }

  /** What `all` resolves or rejects with. */
  function FetchAll(replies: seq<Reply<Navigable>>, col: Collection, now: int): Result<seq<Asset>, FetchError>
    requires Stops(replies)
  {
    var stop := StopIndex(replies);
    match replies[stop]
    case Rejected => Failure(RequestRejected)
    case Reply(_, body) =>
      if body.None? then Failure(MalformedBody) else Success(Accepted(replies, stop + 1, col, now))
  }

  lemma {:induction false} AcceptedBelongs(replies: seq<Reply<Navigable>>, n: nat, col: Collection, now: int)
    requires n <= |replies|
    ensures Belongs(Accepted(replies, n, col, now), col.id)
  {
    if n > 0 {
      AcceptedBelongs(replies, n - 1, col, now);
      PageBelongs(replies[n - 1], col, now);
      BelongsConcat(Accepted(replies, n - 1, col, now), PageItems(replies[n - 1], col, now), col.id);
    }
  }

  /** The assets of one page belong to the collection walked. */
  lemma PageBelongs(reply: Reply<Navigable>, col: Collection, now: int)
    ensures Belongs(PageItems(reply, col, now), col.id)
  {
    if Readable(reply) {
      var items := reply.body.value.result;
      forall k | 0 <= k < |items|
        ensures NormalizedAll(items, col, now)[k] == Normalized(items[k], col, now)
      {
      }
    }
  }

  /** Whatever `all` resolves with belongs to the collection walked and has
      valid timestamps. */
  lemma FetchAllBelongs(replies: seq<Reply<Navigable>>, col: Collection, now: int)
    requires Stops(replies)
    ensures FetchAll(replies, col, now).Success? ==> Belongs(FetchAll(replies, col, now).value, col.id)
  {
    AcceptedBelongs(replies, StopIndex(replies) + 1, col, now);
  }

  /** `FetchAll` by the kind of reply that ends the walk. */
  lemma FetchAllCases(replies: seq<Reply<Navigable>>, col: Collection, now: int)
    requires Stops(replies)
    ensures var stop := StopIndex(replies);
      FetchAll(replies, col, now) == Outcome<Call>(Run(Accepted(replies, stop + 1, col, now), [], EndError(replies[stop])))
  {
  }

  /** The requests of the first `n` requests. */
  function CallsBefore(replies: seq<Reply<Navigable>>, n: nat): (calls: seq<Call>)
    requires n <= |replies|
    ensures |calls| == n
  {
    if n == 0 then [] else CallsBefore(replies, n - 1) + [Get(CursorAt(replies, n - 1))]
  }

  lemma {:induction false} CallsBeforeAt(replies: seq<Reply<Navigable>>, n: nat, k: nat)
    requires n <= |replies| && k < n
    ensures CallsBefore(replies, n)[k] == Get(CursorAt(replies, k))
  {
    if k < n - 1 {
      CallsBeforeAt(replies, n - 1, k);
    }
  }

  /** The requests of a whole walk, the last one included. */
  function CallLog(replies: seq<Reply<Navigable>>): seq<Call>
    requires Stops(replies)
  {
    CallsBefore(replies, StopIndex(replies)) + [Get(CursorAt(replies, StopIndex(replies)))]
  }

  /** The walk makes one request per reply up to the one that ends it; request
      `k` sends `CursorAt(replies, k)`, starting with the empty cursor. */
  lemma CallLogShape(replies: seq<Reply<Navigable>>)
    requires Stops(replies)
    ensures var calls := CallLog(replies);
      && |calls| == StopIndex(replies) + 1
      && calls[0] == Get("")
      && (forall k :: 0 <= k < |calls| ==> calls[k] == Get(CursorAt(replies, k)))
  {
    var stop := StopIndex(replies);
    var calls := CallLog(replies);
    var before := CallsBefore(replies, stop);
    forall k | 0 <= k < |calls|
      ensures calls[k] == Get(CursorAt(replies, k))
    {
      if k < stop {
        CallsBeforeAt(replies, stop, k);
        assert calls[k] == before[k];
      }
    }
    assert calls[0] == Get(CursorAt(replies, 0));
  }

  /** The loop of `all` unrolled: the walk from request `i` on, at `cursor`. */
  function Walk(replies: seq<Reply<Navigable>>, i: nat, cursor: string, col: Collection, now: int): Run<Call>
    requires i <= |replies|
    decreases |replies| - i
  {
    if i == |replies| then Run([], [], None)
    else
      var reply := replies[i];
      if Ends(reply) then Run(PageItems(reply, col, now), [Get(cursor)], EndError(reply))
      else
        Prepend(PageItems(reply, col, now), [Get(cursor)],
                Walk(replies, i + 1, NextCursor(reply, cursor), col, now))
  }

  lemma {:induction false} WalkFrom(replies: seq<Reply<Navigable>>, i: nat, col: Collection, now: int)
    requires Stops(replies) && i <= StopIndex(replies)
    ensures var stop := StopIndex(replies);
      Prepend(Accepted(replies, i, col, now), CallsBefore(replies, i),
              Walk(replies, i, CursorAt(replies, i), col, now))
      == Run(Accepted(replies, stop + 1, col, now), CallLog(replies), EndError(replies[stop]))
    decreases StopIndex(replies) - i
  {
    var stop := StopIndex(replies);
    var reply := replies[i];
    if i < stop {
      BeforeStop(replies, 0, i);
      assert CursorAt(replies, i + 1) == NextCursor(reply, CursorAt(replies, i));
      var next := Walk(replies, i + 1, CursorAt(replies, i + 1), col, now);
      assert Walk(replies, i, CursorAt(replies, i), col, now)
          == Prepend(PageItems(reply, col, now), [Get(CursorAt(replies, i))], next);
      PrependPrepend(Accepted(replies, i, col, now), CallsBefore(replies, i),
                     PageItems(reply, col, now), [Get(CursorAt(replies, i))], next);
      assert Accepted(replies, i + 1, col, now) == Accepted(replies, i, col, now) + PageItems(reply, col, now);
      assert CallsBefore(replies, i + 1) == CallsBefore(replies, i) + [Get(CursorAt(replies, i))];
      WalkFrom(replies, i + 1, col, now);
    } else {
      assert Walk(replies, i, CursorAt(replies, i), col, now)
          == Run(PageItems(reply, col, now), [Get(CursorAt(replies, i))], EndError(reply));
    }
  }

  /** The unrolled loop agrees with the closed forms `FetchAll` and `CallLog`. */
  lemma WalkClosedForm(replies: seq<Reply<Navigable>>, col: Collection, now: int)
    requires Stops(replies)
    ensures var run := Walk(replies, 0, "", col, now);
      Outcome(run) == FetchAll(replies, col, now) && run.calls == CallLog(replies)
  {
    WalkFrom(replies, 0, col, now);
    PrependNothing(Walk(replies, 0, "", col, now));
    FetchAllCases(replies, col, now);
  }

  /** One page that does not end the walk, taken off the front of `whole`. */
  lemma WalkAdvance(replies: seq<Reply<Navigable>>, i: nat, cursor: string, col: Collection, now: int,
                    acc: seq<Asset>, calls: seq<Call>, whole: Run<Call>)
    requires i < |replies| && !Ends(replies[i])
    requires whole == Prepend(acc, calls, Walk(replies, i, cursor, col, now))
    ensures whole == Prepend(acc + PageItems(replies[i], col, now), calls + [Get(cursor)],
                             Walk(replies, i + 1, NextCursor(replies[i], cursor), col, now))
  {
    PrependPrepend(acc, calls, PageItems(replies[i], col, now), [Get(cursor)],
                   Walk(replies, i + 1, NextCursor(replies[i], cursor), col, now));
  }

  /** The page that ends the walk settles `whole`. */
  lemma WalkFinish(replies: seq<Reply<Navigable>>, i: nat, cursor: string, col: Collection, now: int,
                   acc: seq<Asset>, calls: seq<Call>, whole: Run<Call>)
    requires i < |replies| && Ends(replies[i])
    requires whole == Prepend(acc, calls, Walk(replies, i, cursor, col, now))
    ensures whole.calls == calls + [Get(cursor)]
    ensures Outcome(whole) == match EndError(replies[i])
      case Some(e) => Failure(e)
      case None => Success(acc + PageItems(replies[i], col, now))
  {
  }

  /** `all`: walks the pages from the empty cursor, reply `k` of `replies`
      answering request `k`. Returns the outcome and the requests it made. */
  method All(col: Collection, replies: seq<Reply<Navigable>>, now: int)
    returns (result: Result<seq<Asset>, FetchError>, calls: seq<Call>)
    requires Stops(replies)
    ensures result == FetchAll(replies, col, now)
    ensures calls == CallLog(replies)
  {
    var acc: seq<Asset> := [];
    var next := "";
    var i := 0;
    calls := [];
    result := Success([]);
    ghost var stop := StopIndex(replies);
    ghost var whole := Walk(replies, 0, "", col, now);
    PrependNothing(whole);
    while true
      invariant i <= stop
      invariant whole == Prepend(acc, calls, Walk(replies, i, next, col, now))
      decreases stop - i
    {
      var reply := replies[i];
      ghost var old_next := next;
      if Ends(reply) {
        WalkFinish(replies, i, next, col, now, acc, calls, whole);
      } else {
        WalkAdvance(replies, i, next, col, now, acc, calls, whole);
      }
      calls := calls + [Get(next)];
      if reply.Rejected? {
        result := Failure(RequestRejected);
        break;
      }
      if reply.body.None? {
        result := Failure(MalformedBody);
        break;
      }
      var page := reply.body.value;
      if |page.result| == 0 {
        assert acc + PageItems(reply, col, now) == acc;
        result := Success(acc);
        break;
      }
      assert !Ends(reply) && i < stop;
      var mapped := MapAssets(page.result, col, now);
      assert mapped == PageItems(reply, col, now);
      acc := acc + mapped;
      next := CursorText(page.cursor);
      assert next == NextCursor(reply, old_next);
      i := i + 1;
    }
    WalkClosedForm(replies, col, now);
  }
}
