/**
 * A worked listing: the first response holds items "a" and "b" and the token
 * "T1"; the list method answers "T1" with the item "c" and no token, and any
 * other token with an error.  Iterating a pager over it yields "abc" through a
 * single call.
 */
module Scenarios {
  import opened PageTraversal
  import opened Pagers

  const firstPage: Response<char> := Response(['a', 'b'], "T1")
  const secondPage: Response<char> := Response(['c'], "")

  /** A list method for the query 7 with a retry bundle of type int. */
  function ListMethod(r: Request<int>, opts: int): Result<Response<char>, string>
  {
    if r == Request(7, "T1") then Success(secondPage) else Failure("unknown page token")
  }

  /** The traversal of the worked listing, with room for ten pages, stops
      after the second page having made exactly one call, which carries
      the token of the first page. */
  lemma TwoPageTraversal(opts: int)
    ensures var t := Traverse(ListMethod, opts, Request(7, ""), firstPage, 10);
      && t.pages == [firstPage, secondPage]
      && Flatten(t.pages) == ['a', 'b', 'c']
      && t.calls == [Call(Request(7, "T1"), Success(secondPage))]
      && t.end == Exhausted
  {
  }

  /** Iterating a fresh pager over the worked listing gives its three items in
      order, and the pager afterwards holds the second page. */
  method IterateTwoPages() returns (items: seq<char>, held: Response<char>)
    ensures items == ['a', 'b', 'c']
    ensures held == secondPage
  {
    var pager := new Pager(ListMethod, Request(7, ""), firstPage, 0);
    var end;
    items, end := pager.Items(10);
    TwoPageTraversal(0);
    held := pager.CurrentResponse();
  }
}
