/** `parsePaginable`: the sanitiser of the `$skip`, `$top` and `$select`
    query parameters. */
module Paging {
  import opened Wrappers
  import opened Text

  /** A JavaScript number: what unary `+` made of a query parameter. */
  datatype Number = NaN | Infinity(negative: bool) | Finite(x: real)

  /** The pagination query: each parameter absent, or present. `skip` and
      `top` hold what `+` converts them to. */
  datatype Query = Query(skip: Option<Number>, top: Option<Number>, select: Option<string>)

  /** The `page` the middleware adds to the context. */
  datatype Page = Page(skip: Number, top: Number, select: string)

  /** The largest page size, and the one used when `$top` is unusable. */
  const MaxTop: real := 100.0

  predicate IsWhole(x: real) {
    x == x.Floor as real
  }

  /** `isNaN(n) || n < 0` */
  predicate NaNOrNegative(n: Number) {
    n.NaN? || (n.Infinity? && n.negative) || (n.Finite? && n.x < 0.0)
  }

  /** `Math.floor` */
  function Floor(n: Number): (r: Number)
    ensures r.Finite? <==> n.Finite?
    ensures n.Finite? ==> IsWhole(r.x) && r.x <= n.x < r.x + 1.0
  {
    match n
    case Finite(x) => Finite(x.Floor as real)
    case _ => n
  }

  /** The sanitised `$skip`: zero for NaN or a negative value, the whole part
      otherwise; never NaN, never negative. */
  function Skip(n: Number): (r: Number)
    ensures !NaNOrNegative(r)
    ensures r.Finite? ==> IsWhole(r.x)
    ensures NaNOrNegative(n) ==> r == Finite(0.0)
    ensures n.Finite? && n.x >= 0.0 ==> r.Finite? && r.x <= n.x < r.x + 1.0
    ensures n == Infinity(false) ==> r == n
  {
    if NaNOrNegative(n) then Finite(0.0) else Floor(n)
  }

  /** The sanitised `$top`: 100 for NaN or a value outside [0, 100], the
      whole part otherwise; always a whole number in [0, 100]. */
  function Top(n: Number): (r: Number)
    ensures r.Finite? && 0.0 <= r.x <= MaxTop && IsWhole(r.x)
    ensures n.Finite? && 0.0 <= n.x <= MaxTop ==> r.x <= n.x < r.x + 1.0
    ensures !(n.Finite? && 0.0 <= n.x <= MaxTop) ==> r == Finite(MaxTop)
  {
    if NaNOrNegative(n) || n == Infinity(false) || (n.Finite? && n.x > MaxTop) then Finite(MaxTop)
    else Floor(n)
  }

  /** `item.trim()` over the pieces. */
  function TrimAll(parts: seq<string>): (r: seq<string>)
    ensures |r| == |parts|
    ensures forall k :: 0 <= k < |r| ==> r[k] == Trim(parts[k])
  {
    seq(|parts|, k requires 0 <= k < |parts| => Trim(parts[k]))
  }

  /** `arr.lastIndexOf(arr[i]) === i` */
  predicate IsLast(arr: seq<string>, i: nat)
    requires i < |arr|
  {
    forall j :: i < j < |arr| ==> arr[j] != arr[i]
  }

  /** The filter over the first `n` pieces: a piece stays when it is allowed
      and no later piece equals it. */
  function Kept(arr: seq<string>, selects: seq<string>, n: nat): seq<string>
    requires n <= |arr|
  {
    if n == 0 then []
    else Kept(arr, selects, n - 1) + (if arr[n - 1] in selects && IsLast(arr, n - 1) then [arr[n - 1]] else [])
  }

  /** Every kept piece is an allowed last occurrence among the first `n`. */
  lemma {:induction false} KeptFrom(arr: seq<string>, selects: seq<string>, n: nat)
    requires n <= |arr|
    ensures forall x :: x in Kept(arr, selects, n) ==>
              x in selects && exists i :: 0 <= i < n && arr[i] == x && IsLast(arr, i)
  {
    if n > 0 {
      KeptFrom(arr, selects, n - 1);
    }
  }

  /** No piece is kept twice. */
  lemma {:induction false} KeptDistinct(arr: seq<string>, selects: seq<string>, n: nat)
    requires n <= |arr|
    ensures forall i, j :: 0 <= i < j < |Kept(arr, selects, n)| ==> Kept(arr, selects, n)[i] != Kept(arr, selects, n)[j]
  {
    if n > 0 {
      KeptDistinct(arr, selects, n - 1);
      KeptFrom(arr, selects, n - 1);
      var prev := Kept(arr, selects, n - 1);
      forall x | x in prev
        ensures x != arr[n - 1]
      {
        var i :| 0 <= i < n - 1 && arr[i] == x && IsLast(arr, i);
        assert arr[n - 1] != arr[i];
      }
    }
  }

  /** Every allowed piece among the first `n` whose last occurrence is also
      among them is kept. */
  lemma {:induction false} KeptComplete(arr: seq<string>, selects: seq<string>, n: nat, i: nat)
    requires i < n <= |arr| && arr[i] in selects && IsLast(arr, i)
    ensures arr[i] in Kept(arr, selects, n)
  {
    if i < n - 1 {
      KeptComplete(arr, selects, n - 1, i);
    }
  }

  /** Two indices that are both last occurrences of one value coincide. */
  lemma LastUnique(arr: seq<string>, i: nat, j: nat)
    requires i < |arr| && j < |arr| && arr[i] == arr[j] && IsLast(arr, i) && IsLast(arr, j)
    ensures i == j
  {
  }

  /** Kept pieces come from the first `n` pieces, in the order of their last
      occurrences. */
  lemma {:induction false} KeptOrder(arr: seq<string>, selects: seq<string>, n: nat)
    requires n <= |arr|
    ensures forall p :: 0 <= p < |Kept(arr, selects, n)| ==>
              Kept(arr, selects, n)[p] in arr && LastIndex(arr, Kept(arr, selects, n)[p]) < n
    ensures forall p, q :: 0 <= p < q < |Kept(arr, selects, n)| ==>
              LastIndex(arr, Kept(arr, selects, n)[p]) < LastIndex(arr, Kept(arr, selects, n)[q])
  {
    if n > 0 {
      KeptOrder(arr, selects, n - 1);
      var prev := Kept(arr, selects, n - 1);
      if arr[n - 1] in selects && IsLast(arr, n - 1) {
        var cur := Kept(arr, selects, n);
        assert cur == prev + [arr[n - 1]];
        LastUnique(arr, LastIndex(arr, arr[n - 1]), n - 1);
        assert LastIndex(arr, cur[|prev|]) == n - 1;
        assert forall p :: 0 <= p < |prev| ==> cur[p] == prev[p];
      } else {
        assert Kept(arr, selects, n) == prev + [];
      }
    }
  }

  /** `items` are pieces of `arr`, ordered by the index of their last
      occurrence in it. */
  predicate InLastOccurrenceOrder(arr: seq<string>, items: seq<string>) {
    && (forall x :: x in items ==> x in arr)
    && forall p, q :: 0 <= p < q < |items| ==> LastIndex(arr, items[p]) < LastIndex(arr, items[q])
  }

  /** `$select.split(',').map(trim).filter(...)` */
  function SelectItems(select: string, selects: seq<string>): seq<string> {
    var arr := TrimAll(Split(select, ','));
    Kept(arr, selects, |arr|)
  }

  /** The sanitised `$select`: the kept pieces joined with `,`. */
  function Select(select: string, selects: seq<string>): string {
    Join(SelectItems(select, selects), ',')
  }

  /** Every selected name is trimmed, allowed, and named in the input; none
      appears twice; every allowed name of the input is selected; names come
      in the order of their last occurrences in the input. */
  lemma SelectProperties(select: string, selects: seq<string>)
    ensures var items := SelectItems(select, selects);
      && (forall x :: x in items ==> x in selects && IsTrimmed(x) && x in TrimAll(Split(select, ',')))
      && (forall i, j :: 0 <= i < j < |items| ==> items[i] != items[j])
      && (forall x :: x in TrimAll(Split(select, ',')) && x in selects ==> x in items)
    ensures InLastOccurrenceOrder(TrimAll(Split(select, ',')), SelectItems(select, selects))
  {
    var arr := TrimAll(Split(select, ','));
    KeptFrom(arr, selects, |arr|);
    KeptOrder(arr, selects, |arr|);
    KeptDistinct(arr, selects, |arr|);
    forall x | x in arr && x in selects
      ensures x in SelectItems(select, selects)
    {
      var i := LastIndex(arr, x);
      KeptComplete(arr, selects, |arr|, i);
    }
    forall k | 0 <= k < |arr|
      ensures IsTrimmed(arr[k])
    {
      TrimSpec(Split(select, ',')[k]);
    }
  }

  /** The index of the last occurrence of `x`. */
  function LastIndex(arr: seq<string>, x: string): (i: nat)
    requires x in arr
    ensures i < |arr| && arr[i] == x && IsLast(arr, i)
  {
    if arr[|arr| - 1] == x then |arr| - 1 else LastIndex(arr[..|arr| - 1], x)
  }

  /** The trimmed pieces of a comma split hold no comma. */
  lemma PiecesHoldNoComma(select: string)
    ensures forall k :: 0 <= k < |TrimAll(Split(select, ','))| ==> ',' !in TrimAll(Split(select, ','))[k]
  {
    var parts := Split(select, ',');
    forall k | 0 <= k < |parts|
      ensures ',' !in Trim(parts[k])
    {
      if ',' in Trim(parts[k]) {
        TrimInside(parts[k], ',');
      }
    }
  }

  /** A non-empty selection reads back: splitting the sanitised `$select` on
      `,` gives the selected names. */
  lemma SelectRoundTrip(select: string, selects: seq<string>)
    requires |SelectItems(select, selects)| >= 1
    ensures Split(Select(select, selects), ',') == SelectItems(select, selects)
  {
    var arr := TrimAll(Split(select, ','));
    PiecesHoldNoComma(select);
    KeptFrom(arr, selects, |arr|);
    var items := SelectItems(select, selects);
    forall k | 0 <= k < |items|
      ensures ',' !in items[k]
    {
      assert items[k] in items;
    }
    SplitJoin(items, ',');
  }

  /** The page a query gives, each absent parameter taking its default
      (`$skip` 0, `$top` 100, `$select` empty) and a missing input counting
      as an empty one. */
  function ParsePage(input: Option<Query>, selects: seq<string>): (r: Page)
    ensures !NaNOrNegative(r.skip) && r.top.Finite? && 0.0 <= r.top.x <= MaxTop
  {
    var q := input.GetOr(Query(None, None, None));
    Page(Skip(q.skip.GetOr(Finite(0.0))), Top(q.top.GetOr(Finite(MaxTop))), Select(q.select.GetOr(""), selects))
  }

  /** A missing input, or one with no parameter, gives `$skip` 0, `$top` 100
      and an empty `$select`. */
  lemma Defaults(selects: seq<string>)
    ensures ParsePage(None, selects) == Page(Finite(0.0), Finite(MaxTop), "")
    ensures ParsePage(Some(Query(None, None, None)), selects) == Page(Finite(0.0), Finite(MaxTop), "")
  {
    WholeDefaults();
    EmptySelect(selects);
  }

  lemma WholeDefaults()
    ensures Skip(Finite(0.0)) == Finite(0.0) && Top(Finite(MaxTop)) == Finite(MaxTop)
  {
    assert (0.0).Floor == 0;
    assert MaxTop.Floor == 100;
  }

  lemma EmptySelect(selects: seq<string>)
    ensures Select("", selects) == ""
  {
    assert Split("", ',') == [""];
    assert Trim("") == "";
    var arr := TrimAll([""]);
    assert arr == [""];
    assert Kept(arr, selects, 0) == [];
    var items := Kept(arr, selects, 1);
    assert items == [""] || items == [];
  }

  /** A context value: the page this middleware adds, or any other entry. */
  datatype Entry = Other(tag: string) | PageEntry(page: Page)

  const PageKey := "page"

  /** `parsePaginable(selects)`: the context passed to `next`. */
  function ParsePaginable(selects: seq<string>, ctx: map<string, Entry>, input: Option<Query>): (r: map<string, Entry>)
    ensures r.Keys == ctx.Keys + {PageKey}
    ensures forall key :: key in ctx && key != PageKey ==> r[key] == ctx[key]
    ensures r[PageKey].PageEntry? && r[PageKey].page == ParsePage(input, selects)
  {
    ctx[PageKey := PageEntry(ParsePage(input, selects))]
  }
}
