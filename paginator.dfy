/**
 * The page walk every paginated route repeats (`getData(pageCounter)`):
 * request page 1, 2, 3, ... strictly in order, append the kept items of each
 * page, and stop at the first page holding fewer than 30 items. A failed page
 * ends the walk with nothing.
 */
module Paginator {
  import opened Wrappers
  import opened Items

  /** The number of items the remote API puts on a full page. */
  const PageSize: nat := 30

  /** The outcome of one page request. */
  datatype PageResult = Fetched(items: seq<Item>) | Failed

  /**
   * The answer to a request for page `k` (counted from 1) of a resource whose
   * pages are `src`; every page past the end is empty.
   */
  function PageAt(src: seq<PageResult>, k: nat): PageResult
    requires k >= 1
  {
    if k <= |src| then src[k - 1] else Fetched([])
  }

  /** The items of a page answer; none for a failed request. */
  function ItemsOf(r: PageResult): seq<Item> {
    if r.Fetched? then r.items else []
  }

  /** After this answer the walk asks for the next page: it arrived and holds at least 30 items. */
  predicate Continues(r: PageResult) {
    r.Fetched? && |r.items| >= PageSize
  }

  /**
   * How many page requests the walk makes: every page before the last one it
   * requests continued the walk, and the last one did not (or lies past the end).
   */
  function RequestCount(src: seq<PageResult>): (n: nat)
    ensures 1 <= n <= |src| + 1
    ensures forall i :: 0 <= i < n - 1 ==> Continues(src[i])
    ensures n - 1 < |src| ==> !Continues(src[n - 1])
  {
    if src == [] || !Continues(src[0]) then 1
    else
      var n' := RequestCount(src[1..]);
      assert forall i :: 1 <= i < n' ==> src[i] == src[1..][i - 1];
      1 + n'
  }

  /** `acc` put in front of an accumulated answer, if there is one. */
  function Prefixed(acc: seq<Item>, o: Option<seq<Item>>): Option<seq<Item>> {
    if o.Some? then Some(acc + o.value) else None
  }

  /** What the walk accumulates: the kept items of each requested page, or nothing if one failed. */
  function Harvest(src: seq<PageResult>, keep: Item -> bool): Option<seq<Item>> {
    if src == [] then Some([])
    else match src[0]
      case Failed => None
      case Fetched(items) =>
        if |items| < PageSize then Some(Filter(keep, items))
        else Prefixed(Filter(keep, items), Harvest(src[1..], keep))
  }

  /** All items of pages 1 to `n`, in page order. */
  function ItemsOfPages(src: seq<PageResult>, n: nat): seq<Item> {
    if n == 0 then [] else ItemsOfPages(src, n - 1) + ItemsOf(PageAt(src, n))
  }

  /**
   * The page walk. It returns what it accumulated and how many pages it
   * requested; it terminates because every page past the end is empty.
   */
  method FetchAll(src: seq<PageResult>, keep: Item -> bool) returns (json: Option<seq<Item>>, requests: nat)
    ensures requests == RequestCount(src)
    ensures json == Harvest(src, keep)
  {
    var acc: seq<Item> := [];
    var pageCounter: nat := 1;
    assert src[0..] == src;
    PrefixedEmpty(Harvest(src, keep));
    while true
      invariant 1 <= pageCounter <= |src| + 1
      invariant Harvest(src, keep) == Prefixed(acc, Harvest(src[pageCounter - 1..], keep))
      invariant RequestCount(src) == pageCounter - 1 + RequestCount(src[pageCounter - 1..])
      decreases |src| + 1 - pageCounter
    {
      var page := PageAt(src, pageCounter);
      HarvestStep(src, pageCounter, keep);
      if page.Failed? {
        return None, pageCounter;
      }
      var body := page.items;
      ghost var before := acc;
      acc := AppendKept(acc, body, keep);
      if |body| < PageSize {
        return Some(acc), pageCounter;
      }
      PrefixedAppend(before, Filter(keep, body), Harvest(src[pageCounter..], keep));
      pageCounter := pageCounter + 1;
    }
  }

  /** The loop over one page's items: push each item the filter keeps. */
  method AppendKept(acc: seq<Item>, body: seq<Item>, keep: Item -> bool) returns (r: seq<Item>)
    ensures r == acc + Filter(keep, body)
  {
    r := acc;
    var i := 0;
    while i < |body|
      invariant 0 <= i <= |body|
      invariant r == acc + Filter(keep, body[..i])
    {
      assert body[..i + 1][..i] == body[..i];
      if keep(body[i]) {
        r := r + [body[i]];
      }
      i := i + 1;
    }
    assert body[..|body|] == body;
  }

  lemma PrefixedEmpty(o: Option<seq<Item>>)
    ensures Prefixed([], o) == o
  {
    if o.Some? {
      assert [] + o.value == o.value;
    }
  }

  lemma PrefixedAppend(a: seq<Item>, b: seq<Item>, o: Option<seq<Item>>)
    ensures Prefixed(a, Prefixed(b, o)) == Prefixed(a + b, o)
  {
    if o.Some? {
      assert a + (b + o.value) == (a + b) + o.value;
    }
  }

  /** What requesting page `k` contributes to the walk, in the three cases of its answer. */
  lemma HarvestStep(src: seq<PageResult>, k: nat, keep: Item -> bool)
    requires 1 <= k <= |src| + 1
    ensures PageAt(src, k).Failed? ==> Harvest(src[k - 1..], keep).None?
    ensures PageAt(src, k).Fetched? && !Continues(PageAt(src, k)) ==>
      Harvest(src[k - 1..], keep) == Some(Filter(keep, PageAt(src, k).items)) &&
      RequestCount(src[k - 1..]) == 1
    ensures Continues(PageAt(src, k)) ==>
      k <= |src| &&
      Harvest(src[k - 1..], keep) == Prefixed(Filter(keep, PageAt(src, k).items), Harvest(src[k..], keep)) &&
      RequestCount(src[k - 1..]) == 1 + RequestCount(src[k..])
  {
    var rest := src[k - 1..];
    if k <= |src| {
      assert rest[0] == src[k - 1];
      assert rest[1..] == src[k..];
    } else {
      assert rest == [];
    }
  }

  /** Shifting the page source by one page shifts the page numbers by one. */
  lemma {:induction false} ItemsOfPagesShift(src: seq<PageResult>, n: nat)
    requires src != []
    ensures ItemsOfPages(src, n + 1) == ItemsOf(src[0]) + ItemsOfPages(src[1..], n)
  {
    if n > 0 {
      ItemsOfPagesShift(src, n - 1);
      assert PageAt(src, n + 1) == PageAt(src[1..], n);
    }
  }

  /**
   * The walk's outcome against the plain description: it fails exactly when
   * the last requested page failed, and otherwise holds the kept items of the
   * requested pages, in page order.
   */
  lemma {:induction false} HarvestIsKeptItemsOfRequestedPages(src: seq<PageResult>, keep: Item -> bool)
    ensures Harvest(src, keep).None? <==> PageAt(src, RequestCount(src)).Failed?
    ensures Harvest(src, keep).Some? ==> Harvest(src, keep).value == Filter(keep, ItemsOfPages(src, RequestCount(src)))
  {
    if src == [] || !Continues(src[0]) {
      if src != [] {
        assert ItemsOfPages(src, 1) == ItemsOf(src[0]);
      }
    } else {
      HarvestIsKeptItemsOfRequestedPages(src[1..], keep);
      var n' := RequestCount(src[1..]);
      ItemsOfPagesShift(src, n');
      assert PageAt(src, n' + 1) == PageAt(src[1..], n');
      FilterAppend(keep, src[0].items, ItemsOfPages(src[1..], n'));
    }
  }

  /** Filtering while accumulating is filtering what an unfiltered walk accumulates. */
  lemma {:induction false} HarvestFilters(src: seq<PageResult>, keep: Item -> bool)
    ensures Harvest(src, keep).Some? <==> Harvest(src, AnyItem).Some?
    ensures Harvest(src, keep).Some? ==> Harvest(src, keep).value == Filter(keep, Harvest(src, AnyItem).value)
  {
    HarvestIsKeptItemsOfRequestedPages(src, keep);
    HarvestIsKeptItemsOfRequestedPages(src, AnyItem);
    var all := ItemsOfPages(src, RequestCount(src));
    assert Filter(AnyItem, all) == all by { FilterAll(all); }
  }

  /** Keeping every item keeps the sequence. */
  lemma {:induction false} FilterAll(s: seq<Item>)
    ensures Filter(AnyItem, s) == s
    decreases |s|
  {
    if s != [] {
      FilterAll(s[..|s| - 1]);
      assert s == s[..|s| - 1] + [s[|s| - 1]];
    }
  }

  /** A resource of `items`, served in full pages of 30 with a possibly short last page. */
  function Chunks(items: seq<Item>): (src: seq<PageResult>)
    ensures forall i :: 0 <= i < |src| ==> src[i].Fetched? && 0 < |src[i].items| <= PageSize
    decreases |items|
  {
    if |items| < PageSize then (if items == [] then [] else [Fetched(items)])
    else [Fetched(items[..PageSize])] + Chunks(items[PageSize..])
  }

  /**
   * With full pages, T items cost T / 30 + 1 page requests (so a multiple of
   * 30 costs one extra request that returns no items), and the walk returns
   * the kept items, in order.
   */
  lemma {:induction false} ChunkedRequests(items: seq<Item>, keep: Item -> bool)
    ensures RequestCount(Chunks(items)) == |items| / PageSize + 1
    ensures Harvest(Chunks(items), keep) == Some(Filter(keep, items))
    decreases |items|
  {
    if |items| >= PageSize {
      var src := Chunks(items);
      ChunkedRequests(items[PageSize..], keep);
      assert src[1..] == Chunks(items[PageSize..]);
      assert items == items[..PageSize] + items[PageSize..];
      FilterAppend(keep, items[..PageSize], items[PageSize..]);
    }
  }
}
