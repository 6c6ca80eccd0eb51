/**
 * The pager object: one class stands for every generated pager of the OS Config
 * zonal service, the item type T standing for the resource kind.  It holds the
 * bound list method and the retry/timeout/metadata bundle, which never change,
 * its own copy of the request and the most recent response, which each
 * follow-up call overwrites.
 */
module Pagers {
  import opened PageTraversal

  /** The page a pager holds after the calls in `log`: the last successful
      answer, or the response it was built with. */
  function Latest<Q, T, E>(resp0: Response<T>, log: seq<Call<Q, T, E>>): Response<T>
    decreases |log|
  {
    if log == [] then resp0
    else match Last(log).result
      case Success(page) => page
      case Failure(_) => Latest(resp0, log[..|log| - 1])
  }

  /** The calls in `log` are the ones a pager built from `req0` and `resp0` makes:
      each is sent only while the page then held has a token, carries that
      token over the original query, and got the list method's answer to it. */
  ghost predicate Sequenced<Q, T, O, E>(inv: Invoker<Q, T, O, E>, opts: O, req0: Request<Q>, resp0: Response<T>, log: seq<Call<Q, T, E>>)
    decreases |log|
  {
    log == [] ||
    var before := log[..|log| - 1];
    var token := Latest(resp0, before).nextPageToken;
    && Sequenced(inv, opts, req0, resp0, before)
    && token != ""
    && Last(log).request == req0.(pageToken := token)
    && Last(log).result == inv(Last(log).request, opts)
  }

  /** Call k of a sequenced log carries the token of the page held just before
      it and was answered by the list method with the pager's options. */
  lemma {:induction false} SequencedAt<Q, T, O, E>(inv: Invoker<Q, T, O, E>, opts: O, req0: Request<Q>, resp0: Response<T>, log: seq<Call<Q, T, E>>, k: nat)
    requires Sequenced(inv, opts, req0, resp0, log)
    requires k < |log|
    ensures Latest(resp0, log[..k]).nextPageToken != ""
    ensures log[k].request == req0.(pageToken := Latest(resp0, log[..k]).nextPageToken)
    ensures log[k].result == inv(log[k].request, opts)
    decreases |log|
  {
    if k < |log| - 1 {
      var before := log[..|log| - 1];
      assert before[..k] == log[..k] && before[k] == log[k];
      SequencedAt(inv, opts, req0, resp0, before, k);
    }
  }

  /** One resumption of the `pages` generator at its loop head. */
  datatype Step<T, E> = Done | Fetched(page: Response<T>) | Raised(error: E)

  class Pager<Q, T, O, E> {
    const invoker: Invoker<Q, T, O, E>
    const options: O
    var request: Request<Q>
    var response: Response<T>

    ghost const initialRequest: Request<Q>
    ghost const initialResponse: Response<T>
    /** every call made so far, in order */
    ghost var log: seq<Call<Q, T, E>>

    ghost predicate Valid()
      reads this
    {
      && Sequenced(invoker, options, initialRequest, initialResponse, log)
      && response == Latest(initialResponse, log)
      && request == (if log == [] then initialRequest else Last(log).request)
    }

    /** Stores the list method, a copy of the request and the already fetched
        first response; no call is made. */
    constructor (invoker: Invoker<Q, T, O, E>, request: Request<Q>, response: Response<T>, options: O)
      ensures Valid() && log == []
      ensures this.invoker == invoker && this.options == options
      ensures this.request == request && this.response == response
      ensures initialRequest == request && initialResponse == response
    {
      this.invoker := invoker;
      this.options := options;
      this.request := request;
      this.response := response;
      initialRequest := request;
      initialResponse := response;
      log := [];
    }

    /** Response-level fields are looked up on the most recent page. */
    function CurrentResponse(): (r: Response<T>)
      reads this
      requires Valid()
      ensures r == Latest(initialResponse, log)
      ensures log == [] ==> r == initialResponse
    {
      response
    }

    /** Runs the generator from its loop head to its next yield: stops when the
        held page has no token; otherwise writes the token into the request,
        calls the list method and, if the call succeeds, holds and yields its
        answer.  A failing call leaves the held page as it was. */
    method Advance() returns (step: Step<T, E>)
      requires Valid()
      modifies this
      ensures Valid()
      ensures step.Done? <==> old(response).nextPageToken == ""
      ensures step.Done? ==> request == old(request) && response == old(response) && log == old(log)
      ensures !step.Done? ==>
        && request == old(request).(pageToken := old(response).nextPageToken)
        && log == old(log) + [Call(request, invoker(request, options))]
        && match invoker(request, options)
           case Success(page) => step == Fetched(page) && response == page
           case Failure(e) => step == Raised(e) && response == old(response)
    {
      if response.nextPageToken == "" {
        return Done;
      }
      request := request.(pageToken := response.nextPageToken);
      var result := invoker(request, options);
      log := log + [Call(request, result)];
      assert log[..|log| - 1] == old(log);
      match result
      case Success(page) =>
        response := page;
        step := Fetched(page);
      case Failure(e) =>
        step := Raised(e);
    }

    /** A fresh `pages` generator, from which the caller pulls at most
        `maxPages` pages. */
    method Pages(maxPages: nat) returns (pages: seq<Response<T>>, end: End<E>)
      requires Valid()
      modifies this
      ensures Valid()
      ensures var t := Traverse(invoker, options, old(request), old(response), maxPages);
        && pages == t.pages && end == t.end
        && request == t.request && response == t.response
        && log == old(log) + t.calls
    {
      if maxPages == 0 {
        return [], Stopped;
      }
      ghost var whole := Traverse(invoker, options, request, response, maxPages);
      ghost var log0 := log;
      ghost var made: seq<Call<Q, T, E>> := [];
      pages := [response];
      end := Stopped;
      var running := true;
      while running && |pages| < maxPages
        invariant Valid()
        invariant |pages| <= maxPages
        invariant log == log0 + made
        invariant running ==> whole == After(pages, made, Resume(invoker, options, request, response, maxPages - |pages|))
        invariant !running ==> whole == Trace(pages, made, end, request, response)
        decreases maxPages - |pages|, running
      {
        ghost var req, resp, fuel := request, response, maxPages - |pages|;
        var step := Advance();
        match step
        case Done =>
          AfterStopped(invoker, options, pages, made, req, resp, fuel);
          end := Exhausted;
          running := false;
        case Raised(e) =>
          AfterRaised(invoker, options, pages, made, req, resp, fuel, e);
          made := made + [Last(log)];
          end := Failed(e);
          running := false;
        case Fetched(page) =>
          assert invoker(request, options) == Success(page);
          AfterFetched(invoker, options, pages, made, req, resp, fuel, page);
          made := made + [Last(log)];
          pages := pages + [page];
      }
      if running {
        AfterStopped(invoker, options, pages, made, request, response, maxPages - |pages|);
        end := if response.nextPageToken == "" then Exhausted else Stopped;
      }
    }

    /** `__iter__`: the items of the pages a fresh generator yields when the
        caller pulls at most `maxPages` pages, page after page. */
    method Items(maxPages: nat) returns (items: seq<T>, end: End<E>)
      requires Valid()
      modifies this
      ensures Valid()
      ensures var t := Traverse(invoker, options, old(request), old(response), maxPages);
        && items == Flatten(t.pages) && end == t.end
        && request == t.request && response == t.response
        && log == old(log) + t.calls
    {
      var pages;
      pages, end := Pages(maxPages);
      items := FlattenPages(pages);
    }
  }
}
