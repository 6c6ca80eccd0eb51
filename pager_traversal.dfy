/**
 * Value-level model of the page-token protocol shared by every pager of the
 * OS Config zonal service (ListOSPolicyAssignments, ListOSPolicyAssignmentRevisions,
 * ListOSPolicyAssignmentReports, ListInventories, ListVulnerabilityReports, each
 * in a blocking and an asynchronous variant).
 *
 * A pager holds a request, the most recent response and a bound list method.
 * Its `pages` generator yields the held response, then, as long as the held
 * response carries a continuation token, copies that token into the request,
 * calls the list method and yields what it returns.  `Traverse` below is that
 * generator, consumed by a caller who pulls at most `maxPages` pages.
 */
module PageTraversal {

  /** A list request: query parameters the pager never looks at, and the
      continuation token it overwrites before every follow-up call. */
  datatype Request<Q> = Request(query: Q, pageToken: string)

  /** One page of a list response: its items, in order, and the token of the
      next page ("" on the last page). */
  datatype Response<T> = Response(items: seq<T>, nextPageToken: string)

  datatype Result<V, E> = Success(value: V) | Failure(error: E)

  /** The bound list method.  O is the retry/timeout/metadata bundle, which the
      pager forwards without looking at it; the service is taken to answer the
      same request the same way. */
  type Invoker<!Q, T, !O, E> = (Request<Q>, O) -> Result<Response<T>, E>

  /** One call to the list method: the request it received and what it returned. */
  datatype Call<Q, T, E> = Call(request: Request<Q>, result: Result<Response<T>, E>)

  /** How a traversal ended: no continuation token left, the consumer pulled no
      further page, or a follow-up call raised. */
  datatype End<E> = Exhausted | Stopped | Failed(error: E)

  /** What a traversal did: pages yielded, calls made, how it ended, and the
      request and response the pager holds afterwards. */
  datatype Trace<Q, T, E> = Trace(
    pages: seq<Response<T>>,
    calls: seq<Call<Q, T, E>>,
    end: End<E>,
    request: Request<Q>,
    response: Response<T>)

  function Last<X>(s: seq<X>): X
    requires |s| > 0
  {
    s[|s| - 1]
  }

  /**
   * The `pages` loop from its head, holding `req` and `resp`, when the consumer
   * pulls at most `fuel` more pages.
   */
  function Resume<Q, T, O, E>(inv: Invoker<Q, T, O, E>, opts: O, req: Request<Q>, resp: Response<T>, fuel: nat)
    : (t: Trace<Q, T, E>)
    decreases fuel
  {
    if resp.nextPageToken == "" then
      Trace([], [], Exhausted, req, resp)
    else if fuel == 0 then
      Trace([], [], Stopped, req, resp)
    else
      var next := req.(pageToken := resp.nextPageToken);
      match inv(next, opts)
      case Failure(e) =>
        Trace([], [Call(next, Failure(e))], Failed(e), next, resp)
      case Success(page) =>
        var rest := Resume(inv, opts, next, page, fuel - 1);
        Trace([page] + rest.pages, [Call(next, Success(page))] + rest.calls, rest.end, rest.request, rest.response)
  }

  /**
   * A fresh `pages` generator over a pager holding `req` and `resp`, from which
   * the consumer pulls at most `maxPages` pages.
   */
  function Traverse<Q, T, O, E>(inv: Invoker<Q, T, O, E>, opts: O, req: Request<Q>, resp: Response<T>, maxPages: nat)
    : Trace<Q, T, E>
  {
    if maxPages == 0 then
      Trace([], [], Stopped, req, resp)
    else
      After([resp], [], Resume(inv, opts, req, resp, maxPages - 1))
  }

  /** The trace `rest`, preceded by the pages already yielded and the calls
      already made. */
  function After<Q, T, E>(done: seq<Response<T>>, made: seq<Call<Q, T, E>>, rest: Trace<Q, T, E>): Trace<Q, T, E>
  {
    Trace(done + rest.pages, made + rest.calls, rest.end, rest.request, rest.response)
  }

  /**
   * The shape of the loop's run: at most one page per pull, one call per page
   * fetched plus the failing one, a stop only when the pulls are used up, an
   * end without error exactly when the held page has no token, and the held
   * page is always the last one yielded.
   */
  lemma {:induction false} ResumeShape<Q, T, O, E>(inv: Invoker<Q, T, O, E>, opts: O, req: Request<Q>, resp: Response<T>, fuel: nat)
    ensures var t := Resume(inv, opts, req, resp, fuel);
      && |t.pages| <= fuel
      && (t.end == Stopped ==> |t.pages| == fuel)
      && |t.calls| == |t.pages| + (if t.end.Failed? then 1 else 0)
      && (t.end == Exhausted <==> t.response.nextPageToken == "")
      && t.response == Last([resp] + t.pages)
    decreases fuel
  {
    if resp.nextPageToken != "" && fuel > 0 {
      var next := req.(pageToken := resp.nextPageToken);
      match inv(next, opts)
      case Failure(e) =>
      case Success(page) =>
        ResumeShape(inv, opts, next, page, fuel - 1);
        var rest := Resume(inv, opts, next, page, fuel - 1);
        assert Last([resp] + ([page] + rest.pages)) == Last([page] + rest.pages);
    }
  }

  /**
   * The first page of `pages` is the held response, produced without a call;
   * a held response without a continuation token is the only page, and no
   * call is made.  Afterwards the pager holds the last page yielded, and the
   * traversal ended without error exactly when that page has no token.
   */
  lemma TraverseShape<Q, T, O, E>(inv: Invoker<Q, T, O, E>, opts: O, req: Request<Q>, resp: Response<T>, maxPages: nat)
    requires maxPages >= 1
    ensures var t := Traverse(inv, opts, req, resp, maxPages);
      && 1 <= |t.pages| <= maxPages
      && t.pages[0] == resp
      && |t.calls| == |t.pages| - 1 + (if t.end.Failed? then 1 else 0)
      && (resp.nextPageToken == "" ==> t.pages == [resp] && t.calls == [] && t.end == Exhausted && t.request == req)
      && t.response == Last(t.pages)
      && (t.end == Exhausted <==> t.response.nextPageToken == "")
  {
    ResumeShape(inv, opts, req, resp, maxPages - 1);
  }

  /** Call k of trace t, which started out holding `req` and `resp`, carries
      the continuation token of page k of the pages held in turn, over the
      original query. */
  ghost predicate TokensChained<Q, T, E>(req: Request<Q>, resp: Response<T>, t: Trace<Q, T, E>)
  {
    forall k :: 0 <= k < |t.calls| && k <= |t.pages| ==>
      ([resp] + t.pages)[k].nextPageToken != "" && t.calls[k].request == req.(pageToken := ([resp] + t.pages)[k].nextPageToken)
  }

  /** Every call carries the continuation token of the page held just before
      it, over the original query: no page is skipped or fetched twice. */
  lemma {:induction false} ResumeChainsTokens<Q, T, O, E>(inv: Invoker<Q, T, O, E>, opts: O, req: Request<Q>, resp: Response<T>, fuel: nat)
    ensures TokensChained(req, resp, Resume(inv, opts, req, resp, fuel))
    decreases fuel
  {
    if resp.nextPageToken != "" && fuel > 0 {
      var next := req.(pageToken := resp.nextPageToken);
      match inv(next, opts)
      case Failure(e) =>
      case Success(page) =>
        var rest := Resume(inv, opts, next, page, fuel - 1);
        ResumeChainsTokens(inv, opts, next, page, fuel - 1);
        var t := Resume(inv, opts, req, resp, fuel);
        assert t == Trace([page] + rest.pages, [Call(next, Success(page))] + rest.calls, rest.end, rest.request, rest.response);
        var held := [resp] + t.pages;
        var held' := [page] + rest.pages;
        forall k | 0 <= k < |t.calls| && k <= |t.pages|
          ensures held[k].nextPageToken != "" && t.calls[k].request == req.(pageToken := held[k].nextPageToken)
        {
          if k > 0 {
            assert t.calls[k] == rest.calls[k - 1];
            assert held[k] == held'[k - 1];
          }
        }
    }
  }

  /** Every call of trace t got the list method's answer to its request with
      the options `opts`; the yielded pages are exactly the successful answers,
      and a traversal that failed ends on the failing call. */
  ghost predicate Answered<Q, T, O, E>(inv: Invoker<Q, T, O, E>, opts: O, t: Trace<Q, T, E>)
  {
    && (forall k :: 0 <= k < |t.calls| ==> t.calls[k].result == inv(t.calls[k].request, opts))
    && (forall k :: 0 <= k < |t.pages| && k < |t.calls| ==> t.calls[k].result == Success(t.pages[k]))
    && (t.end.Failed? && t.calls != [] ==> Last(t.calls).result == Failure(t.end.error))
  }

  /** The calls of the loop are answered by the list method with the pager's
      own options, and the request held afterwards is the last one sent. */
  lemma {:induction false} ResumeCallsInvoker<Q, T, O, E>(inv: Invoker<Q, T, O, E>, opts: O, req: Request<Q>, resp: Response<T>, fuel: nat)
    ensures var t := Resume(inv, opts, req, resp, fuel);
      && Answered(inv, opts, t)
      && t.request == (if t.calls == [] then req else Last(t.calls).request)
    decreases fuel
  {
    if resp.nextPageToken != "" && fuel > 0 {
      var next := req.(pageToken := resp.nextPageToken);
      match inv(next, opts)
      case Failure(e) =>
      case Success(page) =>
        var rest := Resume(inv, opts, next, page, fuel - 1);
        ResumeCallsInvoker(inv, opts, next, page, fuel - 1);
        var t := Resume(inv, opts, req, resp, fuel);
        assert t == Trace([page] + rest.pages, [Call(next, Success(page))] + rest.calls, rest.end, rest.request, rest.response);
        forall k | 0 <= k < |t.calls|
          ensures t.calls[k].result == inv(t.calls[k].request, opts)
        {
          if k > 0 {
            assert t.calls[k] == rest.calls[k - 1];
          }
        }
        forall k | 0 <= k < |t.pages| && k < |t.calls|
          ensures t.calls[k].result == Success(t.pages[k])
        {
          if k > 0 {
            assert t.calls[k] == rest.calls[k - 1] && t.pages[k] == rest.pages[k - 1];
          }
        }
        if rest.calls != [] {
          assert Last(t.calls) == Last(rest.calls);
        }
    }
  }

  /** The pages a list method serves for the query q, in order: each page but
      the last carries a token, and the answer to that token is the next page. */
  ghost predicate Linked<Q, T, O, E>(inv: Invoker<Q, T, O, E>, opts: O, q: Q, chain: seq<Response<T>>)
    decreases |chain|
  {
    |chain| <= 1 ||
    (&& chain[0].nextPageToken != ""
     && inv(Request(q, chain[0].nextPageToken), opts) == Success(chain[1])
     && Linked(inv, opts, q, chain[1..]))
  }

  /** Every page of a served chain but the last carries a token, and the
      list method answers that token with the page after it. */
  lemma {:induction false} LinkedAt<Q, T, O, E>(inv: Invoker<Q, T, O, E>, opts: O, q: Q, chain: seq<Response<T>>, i: nat)
    requires Linked(inv, opts, q, chain) && i + 1 < |chain|
    ensures chain[i].nextPageToken != ""
    ensures inv(Request(q, chain[i].nextPageToken), opts) == Success(chain[i + 1])
    decreases i
  {
    if i > 0 {
      LinkedAt(inv, opts, q, chain[1..], i - 1);
    }
  }

  /** The first pages of a served chain are a served chain. */
  lemma {:induction false} LinkedPrefix<Q, T, O, E>(inv: Invoker<Q, T, O, E>, opts: O, q: Q, chain: seq<Response<T>>, m: nat)
    requires Linked(inv, opts, q, chain) && m <= |chain|
    ensures Linked(inv, opts, q, chain[..m])
    decreases |chain|
  {
    if m > 1 {
      LinkedPrefix(inv, opts, q, chain[1..], m - 1);
      assert chain[..m][1..] == chain[1..][..m - 1];
    }
  }

  /** The request a pager holds while it holds the last page of `chain`. */
  function RequestForLast<Q, T>(req: Request<Q>, chain: seq<Response<T>>): Request<Q>
    requires |chain| >= 1
  {
    if |chain| == 1 then req else req.(pageToken := chain[|chain| - 2].nextPageToken)
  }

  /** Resuming on the first page of a served chain walks the whole chain, one
      call per page, and then goes on from its last page. */
  lemma {:induction false} ResumeAlongChain<Q, T, O, E>(inv: Invoker<Q, T, O, E>, opts: O, req: Request<Q>, chain: seq<Response<T>>, fuel: nat)
    requires |chain| >= 1 && Linked(inv, opts, req.query, chain)
    requires fuel >= |chain| - 1
    ensures var t := Resume(inv, opts, req, chain[0], fuel);
      var rest := Resume(inv, opts, RequestForLast(req, chain), Last(chain), fuel - (|chain| - 1));
      && t.pages == chain[1..] + rest.pages
      && |t.calls| == |chain| - 1 + |rest.calls|
      && t.end == rest.end && t.request == rest.request && t.response == rest.response
    decreases |chain|
  {
    if |chain| > 1 {
      var next := req.(pageToken := chain[0].nextPageToken);
      assert next == Request(req.query, chain[0].nextPageToken);
      var tail := chain[1..];
      var t1 := Resume(inv, opts, next, chain[1], fuel - 1);
      assert Resume(inv, opts, req, chain[0], fuel)
        == Trace([chain[1]] + t1.pages, [Call(next, Success(chain[1]))] + t1.calls, t1.end, t1.request, t1.response);
      ResumeAlongChain(inv, opts, next, tail, fuel - 1);
      assert RequestForLast(next, tail) == RequestForLast(req, chain);
      assert Last(tail) == Last(chain);
      assert chain[1..] == [chain[1]] + tail[1..];
    }
  }

  /**
   * A chain of N pages whose last has no token is traversed completely: a
   * consumer that pulls up to N pages or more gets exactly those N pages in
   * order, through exactly N - 1 calls, call k carrying page k's token.
   */
  lemma {:induction false} ServedChainTraversal<Q, T, O, E>(inv: Invoker<Q, T, O, E>, opts: O, req: Request<Q>, chain: seq<Response<T>>, maxPages: nat)
    requires |chain| >= 1 && Linked(inv, opts, req.query, chain) && Last(chain).nextPageToken == ""
    requires maxPages >= |chain|
    ensures var t := Traverse(inv, opts, req, chain[0], maxPages);
      && t.pages == chain
      && |t.calls| == |chain| - 1
      && t.end == Exhausted
      && t.response == Last(chain)
      && (forall k :: 0 <= k < |t.calls| ==> t.calls[k].request == req.(pageToken := chain[k].nextPageToken))
  {
    ResumeAlongChain(inv, opts, req, chain, maxPages - 1);
    ResumeChainsTokens(inv, opts, req, chain[0], maxPages - 1);
    assert chain == [chain[0]] + chain[1..];
  }

  /**
   * Pages are fetched only when pulled: a consumer that pulls m pages of a
   * longer chain gets the first m pages and causes exactly m - 1 calls.
   */
  lemma {:induction false} LazyPrefix<Q, T, O, E>(inv: Invoker<Q, T, O, E>, opts: O, req: Request<Q>, chain: seq<Response<T>>, maxPages: nat)
    requires |chain| >= 1 && Linked(inv, opts, req.query, chain)
    requires 1 <= maxPages < |chain|
    ensures var t := Traverse(inv, opts, req, chain[0], maxPages);
      t.pages == chain[..maxPages] && |t.calls| == maxPages - 1 && t.end == Stopped && t.response == chain[maxPages - 1]
  {
    var prefix := chain[..maxPages];
    LinkedPrefix(inv, opts, req.query, chain, maxPages);
    ResumeAlongChain(inv, opts, req, prefix, maxPages - 1);
    assert Last(prefix).nextPageToken != "" by {
      LinkedAt(inv, opts, req.query, chain, maxPages - 1);
      assert Last(prefix) == chain[maxPages - 1];
    }
    assert prefix == [chain[0]] + prefix[1..];
  }

  /**
   * A failing call is not caught: when the call after the last page of a
   * served chain fails, the traversal yields exactly that chain, ends with the
   * error, and the pager still holds the last successful page while its
   * request already carries the token of the failed call.
   */
  lemma {:induction false} FailureStopsTraversal<Q, T, O, E>(inv: Invoker<Q, T, O, E>, opts: O, req: Request<Q>, chain: seq<Response<T>>, e: E, maxPages: nat)
    requires |chain| >= 1 && Linked(inv, opts, req.query, chain)
    requires Last(chain).nextPageToken != ""
    requires inv(req.(pageToken := Last(chain).nextPageToken), opts) == Failure(e)
    requires maxPages > |chain|
    ensures var t := Traverse(inv, opts, req, chain[0], maxPages);
      && t.pages == chain
      && |t.calls| == |chain|
      && t.end == Failed(e)
      && t.response == Last(chain)
      && t.request == req.(pageToken := Last(chain).nextPageToken)
  {
    ResumeAlongChain(inv, opts, req, chain, maxPages - 1);
    assert chain == [chain[0]] + chain[1..];
  }

  /**
   * Because `pages` is a fresh generator on every access, one started after a
   * failure first yields again the page the pager still holds, and its first
   * call sends again the request of the call that failed.
   */
  lemma {:induction false} RestartAfterFailure<Q, T, O, E>(inv: Invoker<Q, T, O, E>, opts: O, req: Request<Q>, resp: Response<T>, maxPages: nat, again: nat)
    requires Traverse(inv, opts, req, resp, maxPages).end.Failed?
    requires again >= 2
    ensures var t := Traverse(inv, opts, req, resp, maxPages);
      var u := Traverse(inv, opts, t.request, t.response, again);
      && u.pages[0] == t.response
      && |u.calls| >= 1
      && u.calls[0] == Last(t.calls)
      && u.end == t.end
  {
    var t := Traverse(inv, opts, req, resp, maxPages);
    assert maxPages >= 1;
    var rest := Resume(inv, opts, req, resp, maxPages - 1);
    assert t == After([resp], [], rest);
    ResumeFailureState(inv, opts, req, resp, maxPages - 1);
    assert t.calls == rest.calls;
    ResumeResends(inv, opts, t.request, t.response, again - 1, t.end.error);
  }

  /** After a failed call the pager still holds the last page it yielded, and
      its request carries that page's token: the request of the failed call. */
  lemma {:induction false} ResumeFailureState<Q, T, O, E>(inv: Invoker<Q, T, O, E>, opts: O, req: Request<Q>, resp: Response<T>, fuel: nat)
    ensures var t := Resume(inv, opts, req, resp, fuel);
      t.end.Failed? ==>
        && t.response.nextPageToken != ""
        && t.request == req.(pageToken := t.response.nextPageToken)
        && t.calls != [] && Last(t.calls) == Call(t.request, Failure(t.end.error))
        && inv(t.request, opts) == Failure(t.end.error)
    decreases fuel
  {
    if resp.nextPageToken != "" && fuel > 0 {
      var next := req.(pageToken := resp.nextPageToken);
      match inv(next, opts)
      case Failure(e) =>
      case Success(page) =>
        ResumeFailureState(inv, opts, next, page, fuel - 1);
        var rest := Resume(inv, opts, next, page, fuel - 1);
        if rest.end.Failed? {
          assert Last([Call(next, Success(page))] + rest.calls) == Last(rest.calls);
        }
    }
  }

  /** A loop whose request already carries the held page's token sends that
      same request again; if the answer is an error, the loop ends there. */
  lemma ResumeResends<Q, T, O, E>(inv: Invoker<Q, T, O, E>, opts: O, req: Request<Q>, resp: Response<T>, fuel: nat, e: E)
    requires resp.nextPageToken != "" && fuel > 0 && req.pageToken == resp.nextPageToken
    requires inv(req, opts) == Failure(e)
    ensures Resume(inv, opts, req, resp, fuel) == Trace([], [Call(req, Failure(e))], Failed(e), req, resp)
  {
  }

  /** One successful step of the loop moves a page and a call from the
      remaining traversal to what has been done. */
  lemma AfterFetched<Q, T, O, E>(inv: Invoker<Q, T, O, E>, opts: O, done: seq<Response<T>>, made: seq<Call<Q, T, E>>,
                                 req: Request<Q>, resp: Response<T>, fuel: nat, page: Response<T>)
    requires resp.nextPageToken != "" && fuel > 0
    requires inv(req.(pageToken := resp.nextPageToken), opts) == Success(page)
    ensures After(done, made, Resume(inv, opts, req, resp, fuel))
         == After(done + [page], made + [Call(req.(pageToken := resp.nextPageToken), Success(page))],
                  Resume(inv, opts, req.(pageToken := resp.nextPageToken), page, fuel - 1))
  {
  }

  /** A failing step ends the traversal with that call as its last. */
  lemma AfterRaised<Q, T, O, E>(inv: Invoker<Q, T, O, E>, opts: O, done: seq<Response<T>>, made: seq<Call<Q, T, E>>,
                                req: Request<Q>, resp: Response<T>, fuel: nat, e: E)
    requires resp.nextPageToken != "" && fuel > 0
    requires inv(req.(pageToken := resp.nextPageToken), opts) == Failure(e)
    ensures After(done, made, Resume(inv, opts, req, resp, fuel))
         == Trace(done, made + [Call(req.(pageToken := resp.nextPageToken), Failure(e))], Failed(e), req.(pageToken := resp.nextPageToken), resp)
  {
  }

  /** A traversal that has nothing left to do ends where it stands. */
  lemma AfterStopped<Q, T, O, E>(inv: Invoker<Q, T, O, E>, opts: O, done: seq<Response<T>>, made: seq<Call<Q, T, E>>,
                                 req: Request<Q>, resp: Response<T>, fuel: nat)
    requires resp.nextPageToken == "" || fuel == 0
    ensures After(done, made, Resume(inv, opts, req, resp, fuel))
         == Trace(done, made, if resp.nextPageToken == "" then Exhausted else Stopped, req, resp)
  {
  }

  /** The items of a sequence of pages, page after page, each page's items in order. */
  function Flatten<T>(pages: seq<Response<T>>): seq<T>
    decreases |pages|
  {
    if pages == [] then [] else Flatten(pages[..|pages| - 1]) + Last(pages).items
  }

  lemma {:induction false} FlattenAppend<T>(a: seq<Response<T>>, b: seq<Response<T>>)
    ensures Flatten(a + b) == Flatten(a) + Flatten(b)
    decreases |b|
  {
    if b != [] {
      var b' := b[..|b| - 1];
      assert (a + b)[..|a + b| - 1] == a + b';
      FlattenAppend(a, b');
    } else {
      assert a + b == a;
    }
  }

  /** The total number of items on a sequence of pages. */
  function ItemCount<T>(pages: seq<Response<T>>): nat
    decreases |pages|
  {
    if pages == [] then 0 else |pages[0].items| + ItemCount(pages[1..])
  }

  /** Item j of page p is item number (items on pages before p) + j of the
      flattened sequence, and there are no other items. */
  lemma {:induction false} FlattenItemAt<T>(pages: seq<Response<T>>, p: nat, j: nat)
    requires p < |pages| && j < |pages[p].items|
    ensures |Flatten(pages)| == ItemCount(pages)
    ensures ItemCount(pages[..p]) + j < |Flatten(pages)|
    ensures Flatten(pages)[ItemCount(pages[..p]) + j] == pages[p].items[j]
    decreases |pages|
  {
    assert pages == [pages[0]] + pages[1..];
    FlattenAppend([pages[0]], pages[1..]);
    assert Flatten([pages[0]]) == pages[0].items by {
      assert [pages[0]][..0] == [];
    }
    if p == 0 {
      assert pages[..0] == [];
      FlattenLength(pages[1..]);
    } else {
      FlattenItemAt(pages[1..], p - 1, j);
      assert pages[..p] == [pages[0]] + pages[1..][..p - 1];
      assert ItemCount(pages[..p]) == |pages[0].items| + ItemCount(pages[1..][..p - 1]) by {
        assert pages[..p][1..] == pages[1..][..p - 1];
      }
    }
  }

  lemma {:induction false} FlattenLength<T>(pages: seq<Response<T>>)
    ensures |Flatten(pages)| == ItemCount(pages)
    decreases |pages|
  {
    if pages != [] {
      assert pages == [pages[0]] + pages[1..];
      FlattenAppend([pages[0]], pages[1..]);
      assert [pages[0]][..0] == [];
      FlattenLength(pages[1..]);
    }
  }

  /** The `__iter__` loop: yield every item of every page, in page order. */
  method FlattenPages<T>(pages: seq<Response<T>>) returns (items: seq<T>)
    ensures items == Flatten(pages)
  {
    items := [];
    for i := 0 to |pages|
      invariant items == Flatten(pages[..i])
    {
      assert pages[..i + 1][..i] == pages[..i];
      items := items + pages[i].items;
    }
    assert pages[..|pages|] == pages;
  }
}
