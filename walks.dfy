/** What the three marketplace adapters' paging loops have in common: a walk
    gathers assets page by page, logs the I/O it does, and may end in an
    error that discards what it gathered. */
module Walks {
  import opened Wrappers
  import opened Nft

  /** A walk, or the rest of one: the assets it gathers, the requests and
      waits it makes, and the error it ends with, if any. */
  datatype Run<C> = Run(items: seq<Asset>, calls: seq<C>, error: Option<FetchError>)

  /** What `all` settles with after `run`: an error discards the assets. */
  function Outcome<C>(run: Run<C>): Result<seq<Asset>, FetchError> {
    if run.error.Some? then Failure(run.error.value) else Success(run.items)
  }

  /** `items` and `calls` happened before `run`. */
  function Prepend<C>(items: seq<Asset>, calls: seq<C>, run: Run<C>): Run<C> {
    Run(items + run.items, calls + run.calls, run.error)
  }

  lemma PrependPrepend<C>(a: seq<Asset>, c: seq<C>, b: seq<Asset>, d: seq<C>, run: Run<C>)
    ensures Prepend(a, c, Prepend(b, d, run)) == Prepend(a + b, c + d, run)
  {
    assert c + (d + run.calls) == (c + d) + run.calls;
    assert a + (b + run.items) == (a + b) + run.items;
  }

  lemma PrependNothing<C>(run: Run<C>)
    ensures Prepend([], [], run) == run
  {
    assert [] + run.calls == run.calls;
    assert [] + run.items == run.items;
  }

  /** Every asset was built from collection `colId` and has both timestamps
      valid. */
  predicate Belongs(items: seq<Asset>, colId: string) {
    forall k :: 0 <= k < |items| ==> items[k].colId == colId && HasValidDates(items[k])
  }

  /** Two lists that belong to a collection concatenate to one that does. */
  lemma BelongsConcat(a: seq<Asset>, b: seq<Asset>, colId: string)
    requires Belongs(a, colId) && Belongs(b, colId)
    ensures Belongs(a + b, colId)
  {
    forall k | |a| <= k < |a + b|
      ensures (a + b)[k] == b[k - |a|]
    {
    }
  }
}
