/** The Loopring helpers: `getBalance` (the de-duplication of the keys it
    queries and its status checks) and `updateNFTs` (the candidate filter and
    the case-insensitive matching of replies to rows). */
module Loopring {
  import opened Wrappers
  import opened Text
  import opened Nft
  import opened Encoding

  /** An `NFT` row: the fields the helpers read. */
  datatype NftRow = NftRow(
    id: nat,
    active: bool,
    nftData: Option<string>,
    tokenAddress: string,
    nftId: Option<string>,
    minter: Option<string>)

  const NoNftsFound := "No NFTs found"
  const AccountError := "Error while fetching Loopring account ID"

  /** The rows `findMany({ where: { active: true } })` returns, in order. */
  function Active(rows: seq<NftRow>): (r: seq<NftRow>)
    ensures forall k :: 0 <= k < |r| ==> r[k] in rows && r[k].active
    ensures forall row :: row in rows && row.active ==> row in r
  {
    if |rows| == 0 then []
    else (if rows[0].active then [rows[0]] else []) + Active(rows[1..])
  }

  /** The `nftData` of every row, in order. */
  function DataOf(rows: seq<NftRow>): (r: seq<Option<string>>)
    ensures |r| == |rows| && forall k :: 0 <= k < |rows| ==> r[k] == rows[k].nftData
  {
    seq(|rows|, k requires 0 <= k < |rows| => rows[k].nftData)
  }

  /** The `tokenAddress` of every row, in order. */
  function AddrOf(rows: seq<NftRow>): (r: seq<Option<string>>)
    ensures |r| == |rows| && forall k :: 0 <= k < |rows| ==> r[k] == Some(rows[k].tokenAddress)
  {
    seq(|rows|, k requires 0 <= k < |rows| => Some(rows[k].tokenAddress))
  }

  /** The list the `forEach` builds: each truthy value pushed unless already there. */
  function Dedup(xs: seq<Option<string>>): seq<string> {
    if |xs| == 0 then []
    else
      var prev := Dedup(xs[..|xs| - 1]);
      var x := xs[|xs| - 1];
      if Truthy(x) && x.value !in prev then prev + [x.value] else prev
  }

  /** The list holds exactly the truthy values of the input. */
  lemma {:induction false} DedupMembers(xs: seq<Option<string>>)
    ensures forall v :: v in Dedup(xs) <==> v != "" && Some(v) in xs
  {
    if |xs| > 0 {
      var init := xs[..|xs| - 1];
      DedupMembers(init);
      assert xs == init + [xs[|xs| - 1]];
    }
  }

  /** Each value appears once. */
  lemma {:induction false} DedupDistinct(xs: seq<Option<string>>)
    ensures forall i, j :: 0 <= i < j < |Dedup(xs)| ==> Dedup(xs)[i] != Dedup(xs)[j]
  {
    if |xs| > 0 {
      DedupDistinct(xs[..|xs| - 1]);
    }
  }

  /** The position of the first occurrence of `Some(v)`. */
  function FirstIndex(xs: seq<Option<string>>, v: string): (i: nat)
    requires Some(v) in xs
    ensures i < |xs| && xs[i] == Some(v) && Some(v) !in xs[..i]
  {
    if xs[0] == Some(v) then 0
    else
      var i := FirstIndex(xs[1..], v);
      assert xs[..i + 1] == [xs[0]] + xs[1..][..i];
      i + 1
  }

  /** The values are in the order of their first occurrences. */
  lemma {:induction false} DedupOrder(xs: seq<Option<string>>)
    ensures forall v :: v in Dedup(xs) ==> Some(v) in xs
    ensures forall i, j :: 0 <= i < j < |Dedup(xs)| ==>
              FirstIndex(xs, Dedup(xs)[i]) < FirstIndex(xs, Dedup(xs)[j])
  {
    DedupMembers(xs);
    if |xs| > 0 {
      var init := xs[..|xs| - 1];
      var x := xs[|xs| - 1];
      assert xs == init + [x];
      DedupOrder(init);
      DedupOrderStep(init, x);
    }
  }

  /** One more input element keeps the order. */
  lemma DedupOrderStep(init: seq<Option<string>>, x: Option<string>)
    requires forall v :: v in Dedup(init) ==> Some(v) in init
    requires forall i, j :: 0 <= i < j < |Dedup(init)| ==>
               FirstIndex(init, Dedup(init)[i]) < FirstIndex(init, Dedup(init)[j])
    ensures forall i, j :: 0 <= i < j < |Dedup(init + [x])| ==>
              Some(Dedup(init + [x])[i]) in init + [x] && Some(Dedup(init + [x])[j]) in init + [x] &&
              FirstIndex(init + [x], Dedup(init + [x])[i]) < FirstIndex(init + [x], Dedup(init + [x])[j])
  {
    var xs := init + [x];
    assert xs[..|xs| - 1] == init;
    var prev := Dedup(init);
    forall k | 0 <= k < |prev|
      ensures Some(prev[k]) in xs && FirstIndex(xs, prev[k]) == FirstIndex(init, prev[k]) < |init|
    {
      FirstIndexExtend(init, x, prev[k]);
    }
    if Truthy(x) && x.value !in prev {
      DedupMembers(init);
      FirstIndexLast(init, x);
      var r := Dedup(xs);
      assert r == prev + [x.value];
      assert Some(r[|prev|]) in xs && FirstIndex(xs, r[|prev|]) == |init|;
    } else {
      assert Dedup(xs) == prev;
    }
  }

  lemma FirstIndexLast(init: seq<Option<string>>, x: Option<string>)
    requires x.Some? && x !in init
    ensures FirstIndex(init + [x], x.value) == |init|
  {
    var xs := init + [x];
    assert forall f :: 0 <= f < |init| ==> xs[f] == init[f];
  }

  lemma FirstIndexExtend(xs: seq<Option<string>>, x: Option<string>, v: string)
    requires Some(v) in xs
    ensures Some(v) in xs + [x] && FirstIndex(xs + [x], v) == FirstIndex(xs, v)
  {
    var i := FirstIndex(xs, v);
    assert (xs + [x])[i] == Some(v);
    assert (xs + [x])[..i] == xs[..i];
  }

  /** The `forEach` of `getBalance`: the distinct `nftData` and
      `tokenAddress` values of the rows, in first-occurrence order. */
  method CollectKeys(rows: seq<NftRow>) returns (nftDatas: seq<string>, tokenAddrs: seq<string>)
    ensures nftDatas == Dedup(DataOf(rows)) && tokenAddrs == Dedup(AddrOf(rows))
  {
    var datas := DataOf(rows);
    var addrs := AddrOf(rows);
    nftDatas := [];
    tokenAddrs := [];
    for k := 0 to |rows|
      invariant nftDatas == Dedup(datas[..k]) && tokenAddrs == Dedup(addrs[..k])
    {
      assert datas[..k + 1][..k] == datas[..k] && addrs[..k + 1][..k] == addrs[..k];
      var row := rows[k];
      if Truthy(row.nftData) && row.nftData.value !in nftDatas {
        nftDatas := nftDatas + [row.nftData.value];
      }
      if row.tokenAddress != "" && row.tokenAddress !in tokenAddrs {
        tokenAddrs := tokenAddrs + [row.tokenAddress];
      }
    }
    assert datas[..|rows|] == datas && addrs[..|rows|] == addrs;
  }

  /** The two requests of `getBalance`, with their query values. */
  datatype BalanceRequest =
    | AccountRequest(owner: string)
    | BalancesRequest(accountId: string, nftDatas: string, tokenAddrs: string)

  /** The account lookup's reply body. */
  datatype Account = Account(accountId: string)

  /** Why `getBalance` rejects: an error it throws, or a rejected `fetch`. */
  datatype BalanceError = Thrown(message: string) | Fetch(reason: FetchError)

  /** `getBalance(address)`: `rows` is the NFT table, `account` and
      `balances` what the two requests produce. The resolved value is the
      balance reply's body, `None` when it is empty. */
  method GetBalance<B>(rows: seq<NftRow>, address: string, account: Reply<Account>, balances: Reply<B>)
    returns (r: Result<Option<B>, BalanceError>, requests: seq<BalanceRequest>)
    ensures Active(rows) == [] ==> r == Failure(Thrown(NoNftsFound)) && requests == []
    ensures Active(rows) != [] ==> |requests| >= 1 && requests[0] == AccountRequest(EncodeURIComponent(address))
    ensures account.Rejected? && Active(rows) != [] ==> r == Failure(Fetch(RequestRejected)) && |requests| == 1
    ensures account.Reply? && account.status != 200 && Active(rows) != [] ==>
              r == Failure(Thrown(AccountError)) && |requests| == 1
    ensures account.Reply? && account.status == 200 && account.body.None? && Active(rows) != [] ==>
              r == Failure(Fetch(MalformedBody)) && |requests| == 1
    ensures account.Reply? && account.status == 200 && account.body.Some? && Active(rows) != [] ==>
              && requests == [
                   AccountRequest(EncodeURIComponent(address)),
                   BalancesRequest(EncodeURIComponent(account.body.value.accountId),
                                   Join(Dedup(DataOf(Active(rows))), ','), Join(Dedup(AddrOf(Active(rows))), ','))]
              && (balances.Rejected? ==> r == Failure(Fetch(RequestRejected)))
              && (balances.Reply? && balances.status != 200 ==> r == Failure(Thrown(AccountError)))
    ensures r.Success? <==> Active(rows) != [] && account.Reply? && account.status == 200 && account.body.Some? &&
                            balances.Reply? && balances.status == 200
    ensures r.Success? ==> r.value == balances.body
  {
    var nfts := Active(rows);
    if |nfts| == 0 {
      return Failure(Thrown(NoNftsFound)), [];
    }
    var nftDatas, tokenAddrs := CollectKeys(nfts);
    requests := [AccountRequest(EncodeURIComponent(address))];
    if account.Rejected? {
      return Failure(Fetch(RequestRejected)), requests;
    }
    if account.status != 200 {
      return Failure(Thrown(AccountError)), requests;
    }
    if account.body.None? {
      return Failure(Fetch(MalformedBody)), requests;
    }
    requests := requests + [BalancesRequest(EncodeURIComponent(account.body.value.accountId),
                                            Join(nftDatas, ','), Join(tokenAddrs, ','))];
    if balances.Rejected? {
      return Failure(Fetch(RequestRejected)), requests;
    }
    if balances.status != 200 {
      return Failure(Thrown(AccountError)), requests;
    }
    r := Success(balances.body);
  }

  /** A row `updateNFTs` looks up: active, with a non-empty `nftId`, `minter`
      and `tokenAddress`, and no `nftData` yet. */
  predicate IsCandidate(row: NftRow) {
    && row.active
    && Truthy(row.nftId)
    && Truthy(row.minter)
    && row.tokenAddress != ""
    && !Truthy(row.nftData)
  }

  function Candidates(rows: seq<NftRow>): (r: seq<NftRow>)
    ensures forall k :: 0 <= k < |r| ==> r[k] in rows && IsCandidate(r[k])
    ensures forall row :: row in rows && IsCandidate(row) ==> row in r
  {
    if |rows| == 0 then []
    else (if IsCandidate(rows[0]) then [rows[0]] else []) + Candidates(rows[1..])
  }

  /** The `nft/info/nftData` lookup of one row. */
  datatype InfoRequest = InfoRequest(nftId: string, tokenAddress: string, minter: string)

  /** Its reply body. */
  datatype Info = Info(nftId: string, nftData: string, minter: string, tokenAddress: string)

  /** `nft.update({ where: { id }, data: { nftData } })`; `id` is missing
      when no row matched. */
  datatype Update = Update(id: Option<nat>, nftData: string)

  function Requests(cands: seq<NftRow>): (r: seq<InfoRequest>)
    requires forall k :: 0 <= k < |cands| ==> IsCandidate(cands[k])
    ensures |r| == |cands|
    ensures forall k :: 0 <= k < |cands| ==>
              Some(r[k].nftId) == cands[k].nftId && r[k].tokenAddress == cands[k].tokenAddress &&
              Some(r[k].minter) == cands[k].minter
  {
    seq(|cands|, k requires 0 <= k < |cands| && IsCandidate(cands[k]) =>
      InfoRequest(cands[k].nftId.value, cands[k].tokenAddress, cands[k].minter.value))
  }

  /** The row a reply is about: `nftId`, `tokenAddress` and `minter` equal
      up to case. */
  predicate Matches(row: NftRow, info: Info) {
    && row.nftId.Some? && SameIgnoringCase(row.nftId.value, info.nftId)
    && SameIgnoringCase(row.tokenAddress, info.tokenAddress)
    && row.minter.Some? && SameIgnoringCase(row.minter.value, info.minter)
  }

  /** `items.find(...)?.id` */
  function MatchId(cands: seq<NftRow>, info: Info): (r: Option<nat>)
    ensures r.Some? <==> exists k :: 0 <= k < |cands| && Matches(cands[k], info)
    ensures r.Some? ==> exists k :: 0 <= k < |cands| && Matches(cands[k], info) && r.value == cands[k].id &&
                                    forall j :: 0 <= j < k ==> !Matches(cands[j], info)
  {
    if |cands| == 0 then None
    else if Matches(cands[0], info) then Some(cands[0].id)
    else
      var r := MatchId(cands[1..], info);
      assert forall k :: 1 <= k < |cands| ==> cands[k] == cands[1..][k - 1];
      r
  }

  /** A reply finds the same row whatever the case of its fields. */
  lemma MatchIgnoresCase(cands: seq<NftRow>, a: Info, b: Info)
    requires SameIgnoringCase(a.nftId, b.nftId) && SameIgnoringCase(a.tokenAddress, b.tokenAddress)
    requires SameIgnoringCase(a.minter, b.minter)
    ensures MatchId(cands, a) == MatchId(cands, b)
  {
    forall row | true
      ensures Matches(row, a) <==> Matches(row, b)
    {
      if row.nftId.Some? {
        SameIgnoringCaseIsEquivalence(row.nftId.value, a.nftId, b.nftId);
        SameIgnoringCaseIsEquivalence(row.nftId.value, b.nftId, a.nftId);
        SameIgnoringCaseIsEquivalence(b.nftId, a.nftId, a.nftId);
      }
      SameIgnoringCaseIsEquivalence(row.tokenAddress, a.tokenAddress, b.tokenAddress);
      SameIgnoringCaseIsEquivalence(row.tokenAddress, b.tokenAddress, a.tokenAddress);
      SameIgnoringCaseIsEquivalence(b.tokenAddress, a.tokenAddress, a.tokenAddress);
      if row.minter.Some? {
        SameIgnoringCaseIsEquivalence(row.minter.value, a.minter, b.minter);
        SameIgnoringCaseIsEquivalence(row.minter.value, b.minter, a.minter);
        SameIgnoringCaseIsEquivalence(b.minter, a.minter, a.minter);
      }
    }
    MatchIdSame(cands, a, b);
  }

  lemma {:induction false} MatchIdSame(cands: seq<NftRow>, a: Info, b: Info)
    requires forall row :: Matches(row, a) <==> Matches(row, b)
    ensures MatchId(cands, a) == MatchId(cands, b)
  {
    if |cands| > 0 {
      MatchIdSame(cands[1..], a, b);
    }
  }

  /** The updates of the replies: one per 200 reply, in reply order, none for
      any other status. */
  function Updates(cands: seq<NftRow>, replies: seq<Reply<Info>>): seq<Update>
    requires forall k :: 0 <= k < |replies| ==> replies[k].Reply? && (replies[k].status == 200 ==> replies[k].body.Some?)
  {
    if |replies| == 0 then []
    else
      var reply := replies[0];
      (if reply.status == 200 then [Update(MatchId(cands, reply.body.value), reply.body.value.nftData)] else [])
      + Updates(cands, replies[1..])
  }

  /** The updates of consecutive reply lists follow one another: each reply
      contributes its own updates, in reply order. */
  lemma {:induction false} UpdatesAppend(cands: seq<NftRow>, a: seq<Reply<Info>>, b: seq<Reply<Info>>)
    requires forall k :: 0 <= k < |a| ==> a[k].Reply? && (a[k].status == 200 ==> a[k].body.Some?)
    requires forall k :: 0 <= k < |b| ==> b[k].Reply? && (b[k].status == 200 ==> b[k].body.Some?)
    ensures Updates(cands, a + b) == Updates(cands, a) + Updates(cands, b)
  {
    if |a| == 0 {
      assert a + b == b;
    } else {
      var head := if a[0].status == 200 then [Update(MatchId(cands, a[0].body.value), a[0].body.value.nftData)] else [];
      assert (a + b)[0] == a[0];
      assert (a + b)[1..] == a[1..] + b;
      assert Updates(cands, a) == head + Updates(cands, a[1..]);
      assert Updates(cands, a + b) == head + Updates(cands, a[1..] + b);
      UpdatesAppend(cands, a[1..], b);
    }
  }

  /** A single reply gives one update when its status is 200, and none
      otherwise. */
  lemma UpdatesOfOne(cands: seq<NftRow>, reply: Reply<Info>)
    requires reply.Reply? && (reply.status == 200 ==> reply.body.Some?)
    ensures Updates(cands, [reply]) ==
              if reply.status == 200 then [Update(MatchId(cands, reply.body.value), reply.body.value.nftData)] else []
  {
    assert [reply][1..] == [];
  }

  /** Every update comes from a 200 reply and carries its `nftData` and the
      id of the first row it matches; replies of any other status give none. */
  lemma {:induction false} UpdatesFromOkReplies(cands: seq<NftRow>, replies: seq<Reply<Info>>)
    requires forall k :: 0 <= k < |replies| ==> replies[k].Reply? && (replies[k].status == 200 ==> replies[k].body.Some?)
    ensures forall u :: u in Updates(cands, replies) ==>
              exists k :: 0 <= k < |replies| && replies[k].status == 200 &&
                u == Update(MatchId(cands, replies[k].body.value), replies[k].body.value.nftData)
    ensures (forall k :: 0 <= k < |replies| ==> replies[k].status != 200) ==> Updates(cands, replies) == []
  {
    if |replies| > 0 {
      UpdatesFromOkReplies(cands, replies[1..]);
      assert forall k :: 1 <= k < |replies| ==> replies[k] == replies[1..][k - 1];
    }
  }

  /** Every 200 reply gives its update. */
  lemma {:induction false} OkRepliesGiveUpdates(cands: seq<NftRow>, replies: seq<Reply<Info>>)
    requires forall k :: 0 <= k < |replies| ==> replies[k].Reply? && (replies[k].status == 200 ==> replies[k].body.Some?)
    ensures forall k :: 0 <= k < |replies| && replies[k].status == 200 ==>
              Update(MatchId(cands, replies[k].body.value), replies[k].body.value.nftData) in Updates(cands, replies)
  {
    if |replies| > 0 {
      OkRepliesGiveUpdates(cands, replies[1..]);
      assert forall k :: 1 <= k < |replies| ==> replies[k] == replies[1..][k - 1];
    }
  }

  /** Why `updateNFTs` rejects: a lookup failed, or the database refused an
      update whose `where: { id }` is missing because its reply matched no
      row. */
  datatype UpdateError = Lookup(reason: FetchError) | NoMatchingRow

  /** What `updateNFTs` does: the lookups it sends, the updates it makes, and
      how it settles. */
  datatype Outcome = Outcome(requests: seq<InfoRequest>, updates: seq<Update>, result: Result<bool, UpdateError>)

  /** A reply that makes the run reject: a rejected `fetch`, or a 200 whose
      body cannot be read. */
  predicate Breaks(reply: Reply<Info>) {
    reply.Rejected? || (reply.status == 200 && reply.body.None?)
  }

  /** A readable 200 reply that matches none of the candidates. */
  predicate Unmatched(cands: seq<NftRow>, reply: Reply<Info>) {
    reply.Reply? && reply.status == 200 && reply.body.Some? && MatchId(cands, reply.body.value).None?
  }

  /** `updateNFTs()`: `rows` is the NFT table and `replies[k]` what the lookup
      of candidate `k` produces. */
  function UpdateNFTs(rows: seq<NftRow>, replies: seq<Reply<Info>>): (r: Outcome)
    requires |replies| == |Candidates(rows)|
    ensures Candidates(rows) == [] ==> r == Outcome([], [], Success(true))
    ensures r.requests == Requests(Candidates(rows))
    ensures (exists k :: 0 <= k < |replies| && Breaks(replies[k])) ==> r.result.Failure? && r.updates == []
    ensures (forall k :: 0 <= k < |replies| ==> !Breaks(replies[k])) ==>
              && r.updates == Updates(Candidates(rows), replies)
              && (r.result == Success(true) <==> forall k :: 0 <= k < |replies| ==> !Unmatched(Candidates(rows), replies[k]))
              && (r.result.Failure? ==> r.result.error == NoMatchingRow)
  {
    var cands := Candidates(rows);
    if |cands| == 0 then Outcome([], [], Success(true))
    else if exists k :: 0 <= k < |replies| && replies[k].Rejected? then
      Outcome(Requests(cands), [], Failure(Lookup(RequestRejected)))
    else if exists k :: 0 <= k < |replies| && Breaks(replies[k]) then
      Outcome(Requests(cands), [], Failure(Lookup(MalformedBody)))
    else if exists k :: 0 <= k < |replies| && Unmatched(cands, replies[k]) then
      Outcome(Requests(cands), Updates(cands, replies), Failure(NoMatchingRow))
    else Outcome(Requests(cands), Updates(cands, replies), Success(true))
  }

  /** When every lookup succeeds, the run resolves with `true` exactly when
      every update it makes names a row. */
  lemma SucceedsIffEveryUpdateHasId(rows: seq<NftRow>, replies: seq<Reply<Info>>)
    requires |replies| == |Candidates(rows)|
    requires forall k :: 0 <= k < |replies| ==> !Breaks(replies[k])
    ensures UpdateNFTs(rows, replies).result == Success(true) <==>
              forall u :: u in UpdateNFTs(rows, replies).updates ==> u.id.Some?
  {
    var cands := Candidates(rows);
    var r := UpdateNFTs(rows, replies);
    UpdatesFromOkReplies(cands, replies);
    OkRepliesGiveUpdates(cands, replies);
    if r.result == Success(true) {
      forall u | u in r.updates
        ensures u.id.Some?
      {
        var k :| 0 <= k < |replies| && replies[k].status == 200 &&
                 u == Update(MatchId(cands, replies[k].body.value), replies[k].body.value.nftData);
        assert !Unmatched(cands, replies[k]);
      }
    } else {
      var k :| 0 <= k < |replies| && Unmatched(cands, replies[k]);
      assert Update(None, replies[k].body.value.nftData) in r.updates;
    }
  }
}
