/**
 Pages of search results.

 A page is cut out of one search whose limit grows with the page number: page `p` asks for the first
 `(p + 1) * size` results and takes the last `size` of them. Page sizes above 100 count as 100.

 The database caps the limit of any search at 200, whatever was asked for, so the pages end there even when the
 ranking goes on.
 */
module Pagination {
  const MAX_PAGE := 100
  const MAX_RESULTS := 200

  function Min(a: nat, b: nat): nat {
    if a < b then a else b
  }

  /** The database returns the best results, never more than 200 whatever the limit asked for. */
  function Search<T>(ranking: seq<T>, limit: nat): seq<T> {
    ranking[..Min(|ranking|, Min(limit, MAX_RESULTS))]
  }

  function Page<T>(ranking: seq<T>, page: nat, pageSize: nat): seq<T> {
    var limit := Min(pageSize, MAX_PAGE);
    var all := Search(ranking, limit * (page + 1));
    var start := page * limit;
    if start < |all| then all[start..Min(start + limit, |all|)] else []
  }

  function Pages<T>(ranking: seq<T>, pageSize: nat, n: nat): seq<T> {
    if n == 0 then [] else Pages(ranking, pageSize, n - 1) + Page(ranking, n - 1, pageSize)
  }

  /** The pages one after the other are the ranking from the start, without gap or overlap, as far as 200 results. */
  lemma {:induction false} PagesAreAPrefix<T>(ranking: seq<T>, pageSize: nat, n: nat)
    ensures Pages(ranking, pageSize, n) == ranking[..Min(|ranking|, Min(n * Min(pageSize, 100), 200))]
  {
    if n > 0 {
      PagesAreAPrefix(ranking, pageSize, n - 1);
      var limit := Min(pageSize, MAX_PAGE);
      var start := (n - 1) * limit;
      assert n * limit == start + limit && limit * (n - 1 + 1) == start + limit;
      NextSlice(ranking, start, limit);
    }
  }

  lemma {:induction false} NextSlice<T>(ranking: seq<T>, start: nat, limit: nat)
    ensures
      var all := ranking[..Min(|ranking|, Min(start + limit, MAX_RESULTS))];
      ranking[..Min(|ranking|, Min(start, MAX_RESULTS))]
        + (if start < |all| then all[start..Min(start + limit, |all|)] else []) == all
  {
  }

  /** The first pages hold all the best results they have room for exactly while 200 results are enough. */
  lemma {:induction false} PagesCoverExactly<T>(ranking: seq<T>, pageSize: nat, n: nat)
    ensures var room := n * Min(pageSize, 100);
      Pages(ranking, pageSize, n) == ranking[..Min(|ranking|, room)] <==> room <= 200 || |ranking| <= 200
  {
    PagesAreAPrefix(ranking, pageSize, n);
  }
}
