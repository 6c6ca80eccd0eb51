# OS Config zonal service pagers, modelled in Dafny

The OS Config zonal service client returns its list results through pagers.
There are ten pager classes: ListOSPolicyAssignments, ListOSPolicyAssignmentRevisions,
ListOSPolicyAssignmentReports, ListInventories and ListVulnerabilityReports, each in a
blocking and an asynchronous variant.

A pager is built from four things: the bound list method, the initial request, the
response that call already returned, and the retry/timeout/metadata settings. It keeps
its own copy of the request. Its `pages` generator works like this:

1. It yields the response it holds.
2. While that response carries a non-empty `next_page_token`, it writes the token into
   its request, calls the list method with the unchanged settings, holds the answer and
   yields it.

Iterating the pager yields the items of each page, page after page. Any attribute the
pager does not have itself is looked up on the response it currently holds.

The ten classes differ only in their request, response and item types and in the name
of the repeated item field. So the project models one generic pager:

- **`PageTraversal`** (`pager_traversal.dfy`) is the value-level protocol:
  - `Resume` and `Traverse` say what a `pages` generator yields, which calls it
    makes, how it ends, and what the pager holds afterwards, when the caller pulls
    at most `maxPages` pages;
  - `Flatten` gives the items of those pages;
  - the lemmas are the protocol's properties.
- **`Pagers`** (`pager.dfy`) is the object. Class `Pager` has:
  - the bound method and the settings, as constant fields;
  - the request and the held response, as mutable fields;
  - a ghost log of every call made.

  Its method `Advance` is one resumption of the generator, and its contract
  gives the new request, response and log directly. Its methods `Pages` and
  `Items` are proved against `Traverse` and `Flatten`. The invariant `Valid` ties the fields to
  the log: every call carried the token of the page held just before it and got the
  list method's answer, and the held response is the last successful answer.
- **`Scenarios`** (`scenarios.dfy`) is a worked two-page listing.

The type parameters stand for the parts that vary between the ten classes:
- Q is the request's other fields;
- T is the item type;
- O is the retry/timeout/metadata bundle;
- E is the exception a failing call raises.

A call that raises is modelled as a `Failure` result. The traversal ends there, just
as the exception propagates out of the generator.

## Model

| member | source | states |
|---|---|---|
| PageTraversal.Resume | packages/google-cloud-os-config/google/cloud/osconfig_v1/services/os_config_zonal_service/pagers.py:107-115 | Reference definition of the `pages` loop from its head: while the held page has a token and pulls remain, copy the token into the request, call the list method, then yield the answer or stop on the error. Its properties are stated by `ResumeShape`, `ResumeChainsTokens`, `ResumeCallsInvoker` and `ResumeFailureState`. |
| PageTraversal.Traverse | packages/google-cloud-os-config/google/cloud/osconfig_v1/services/os_config_zonal_service/pagers.py:104-115 | Reference definition of one fresh `pages` generator: yield the held response with no call, then run `Resume`. Its properties are stated by `TraverseShape` and the chain lemmas. |
| PageTraversal.Flatten | packages/google-cloud-os-config/google/cloud/osconfig_v1/services/os_config_zonal_service/pagers.py:117-119 | Reference definition of the items `__iter__` yields: each page's items, page after page. Its properties are stated by `FlattenAppend`, `FlattenItemAt` and `FlattenLength`. |
| Pagers.Latest | packages/google-cloud-os-config/google/cloud/osconfig_v1/services/os_config_zonal_service/pagers.py:109-115 | Reference definition of the response a pager holds after a call log: the last successful answer, otherwise the initial response. |
| Pagers.Sequenced | packages/google-cloud-os-config/google/cloud/osconfig_v1/services/os_config_zonal_service/pagers.py:107-114 | Reference definition of a call log that pager could have made: each call is sent while the held page has a token, carries that token, and has the list method's answer. Its index form is `SequencedAt`. |
| Pagers.Pager.constructor | packages/google-cloud-os-config/google/cloud/osconfig_v1/services/os_config_zonal_service/pagers.py:67-99 | Building a pager makes no call. It keeps the method, the settings, its own copy of the request and the given first response, and holds that response. |
| Pagers.Pager.CurrentResponse | packages/google-cloud-os-config/google/cloud/osconfig_v1/services/os_config_zonal_service/pagers.py:101-102 | Attribute lookup goes to the most recent response: the last successful answer in the call log, or the initial response if no call was made. |
| Pagers.Pager.Advance | packages/google-cloud-os-config/google/cloud/osconfig_v1/services/os_config_zonal_service/pagers.py:107-115 | One resumption of the loop. With no token it stops and changes nothing. Otherwise it writes the held token into the request and makes exactly one call with the unchanged settings, logged with its answer. On success the answer is held and yielded. On failure the held response is unchanged, while the request already carries the token. |
| Pagers.Pager.Pages | packages/google-cloud-os-config/google/cloud/osconfig_v1/services/os_config_zonal_service/pagers.py:104-115 | A fresh `pages` generator, consumed up to `maxPages` pages. It yields exactly `Traverse`'s pages and ends as `Traverse` does. Afterwards the pager holds `Traverse`'s request and response, and the log grew by exactly `Traverse`'s calls. The invariant `Valid` is kept. |
| Pagers.Pager.Items | packages/google-cloud-os-config/google/cloud/osconfig_v1/services/os_config_zonal_service/pagers.py:117-119 | `__iter__` yields the page-order concatenation of the items of `Traverse`'s pages. The pager state and log change as for `Pages`. |
| Pagers.SequencedAt | packages/google-cloud-os-config/google/cloud/osconfig_v1/services/os_config_zonal_service/pagers.py:107-114 | Every logged call was made while the page then held had a non-empty token. It carried that token over the original request's other fields, and got the list method's answer under the pager's own settings. |
| PageTraversal.TraverseShape | packages/google-cloud-os-config/google/cloud/osconfig_v1/services/os_config_zonal_service/pagers.py:104-115 | The first page is the held response, with no call. An empty initial token gives exactly one page, no call and an unchanged request. At most `maxPages` pages are yielded, with one call per page after the first, plus the failing call. The pager then holds the last page yielded. The traversal is exhausted exactly when that page has no token. |
| PageTraversal.ResumeShape | packages/google-cloud-os-config/google/cloud/osconfig_v1/services/os_config_zonal_service/pagers.py:107-115 | The loop from its head: at most `fuel` pages. It stops only when the pulls are used up, and the calls are the fetched pages plus at most one failure. It is exhausted iff the held page has no token, and the held page is always the last one yielded. |
| PageTraversal.ResumeChainsTokens | packages/google-cloud-os-config/google/cloud/osconfig_v1/services/os_config_zonal_service/pagers.py:107-108 | Call k carries the token of the page held before it, over the original request's other fields. That token was non-empty. |
| PageTraversal.ResumeCallsInvoker | packages/google-cloud-os-config/google/cloud/osconfig_v1/services/os_config_zonal_service/pagers.py:109-114 | Every call got the list method's answer with the pager's unchanged settings. The yielded pages are exactly the successful answers, a failed traversal ends on its failing call, and the request held afterwards is the last one sent. |
| PageTraversal.LinkedAt | packages/google-cloud-os-config/google/cloud/osconfig_v1/services/os_config_zonal_service/pagers.py:107-109 | In a served chain, every page but the last has a token, and the list method answers that token with the next page. |
| PageTraversal.LinkedPrefix | packages/google-cloud-os-config/google/cloud/osconfig_v1/services/os_config_zonal_service/pagers.py:104-115 | A prefix of a served chain is a served chain. |
| PageTraversal.ResumeAlongChain | packages/google-cloud-os-config/google/cloud/osconfig_v1/services/os_config_zonal_service/pagers.py:107-115 | Walking a served chain from its first page yields the rest of the chain with one call per page, then continues from the chain's last page. |
| PageTraversal.ServedChainTraversal | packages/google-cloud-os-config/google/cloud/osconfig_v1/services/os_config_zonal_service/pagers.py:104-115 | A chain of N pages whose last page has no token is yielded completely, in order. This takes exactly N-1 calls, call k carrying page k's token, and ends exhausted holding the last page. |
| PageTraversal.LazyPrefix | packages/google-cloud-os-config/google/cloud/osconfig_v1/services/os_config_zonal_service/pagers.py:104-115 | A consumer that pulls only m of N > m pages gets the first m and causes exactly m-1 calls. The pager holds page m. |
| PageTraversal.FailureStopsTraversal | packages/google-cloud-os-config/google/cloud/osconfig_v1/services/os_config_zonal_service/pagers.py:107-115 | A failing call is not caught. The pages already yielded are exactly the served chain, and the traversal ends with that error. The pager still holds the last good page, while its request carries the failed call's token. |
| PageTraversal.ResumeFailureState | packages/google-cloud-os-config/google/cloud/osconfig_v1/services/os_config_zonal_service/pagers.py:108-109 | After a failure, the held request is the one that failed: it is the held page's token over the original fields, and the list method answers it with that error. |
| PageTraversal.ResumeResends | packages/google-cloud-os-config/google/cloud/osconfig_v1/services/os_config_zonal_service/pagers.py:107-114 | A loop whose request already carries the held token sends that same request again. |
| PageTraversal.RestartAfterFailure | packages/google-cloud-os-config/google/cloud/osconfig_v1/services/os_config_zonal_service/pagers.py:104-109 | Reading `pages` again after a failure first re-yields the page still held. It then re-sends the failed request. With the list method deterministic, that call fails again with the same error (see "## Left out"). |
| PageTraversal.AfterFetched | packages/google-cloud-os-config/google/cloud/osconfig_v1/services/os_config_zonal_service/pagers.py:108-115 | A successful step moves one page and one call from the loop's remainder to the part already done. |
| PageTraversal.AfterRaised | packages/google-cloud-os-config/google/cloud/osconfig_v1/services/os_config_zonal_service/pagers.py:108-114 | A failing step ends the traversal on that call, keeping the held page. |
| PageTraversal.AfterStopped | packages/google-cloud-os-config/google/cloud/osconfig_v1/services/os_config_zonal_service/pagers.py:107 | With no token or no pulls left, the traversal ends where it stands. |
| PageTraversal.FlattenAppend | packages/google-cloud-os-config/google/cloud/osconfig_v1/services/os_config_zonal_service/pagers.py:117-119 | The items of two page runs are the items of the first followed by those of the second. |
| PageTraversal.FlattenItemAt | packages/google-cloud-os-config/google/cloud/osconfig_v1/services/os_config_zonal_service/pagers.py:117-119 | Item j of page p is at position (items on earlier pages) + j of the iteration, and the iteration has exactly as many items as the pages hold. |
| PageTraversal.FlattenLength | packages/google-cloud-os-config/google/cloud/osconfig_v1/services/os_config_zonal_service/pagers.py:117-119 | The iteration yields exactly as many items as the pages hold. |
| PageTraversal.FlattenPages | packages/google-cloud-os-config/google/cloud/osconfig_v1/services/os_config_zonal_service/pagers.py:117-119 | The `__iter__` loop produces `Flatten` of the pages. |
| Scenarios.TwoPageTraversal | packages/google-cloud-os-config/google/cloud/osconfig_v1/services/os_config_zonal_service/pagers.py:104-119 | First page with items "ab" and token "T1", second with "c" and no token. The traversal yields both pages and items "abc" through the single call `Request(7, "T1")`, and is exhausted. |
| Scenarios.IterateTwoPages | packages/google-cloud-os-config/google/cloud/osconfig_v1/services/os_config_zonal_service/pagers.py:117-119 | Iterating a fresh pager over that listing gives "abc" and leaves the second page held. |

## Left out

- The asynchronous pagers (from line 125 on, and every `...AsyncPager` class) run the same loop with `await` on the call. Their step semantics is the one modelled; coroutine scheduling and interleaving are not.
- The other four resource kinds (lines 209-868) are instances of the generic pager. They bind T to the item type of `os_policy_assignments`, `os_policy_assignment_reports`, `inventories` or `vulnerability_reports` (lines 285, 456, 625 and 781).
- The retry, timeout and metadata values are forwarded untouched as a single opaque parameter. Their meaning belongs to the transport, which is not part of this model. The same holds for the import fallback for `OptionalRetry` (lines 28-39).
- The list method is a deterministic total function of request and settings. Network I/O, time and retries inside it are not modelled, and a raised exception is a `Failure` value.
- PageTraversal.RestartAfterFailure: the conclusion that the re-sent call fails again with the same error, so that the pager never recovers, follows only from modelling the list method as a deterministic function. In the service, the repeated network call may succeed. What the source itself guarantees is the re-yielded held page and the re-sent request.
- Responses are modelled as values. The source keeps the caller's response object without copying it (line 96) and yields that same object (lines 106 and 115). It then reads the next token from the object (line 107). So a caller who changes a yielded page's token or items changes what the loop does next. The model does not capture this aliasing.
- The proto-plus copy made at line 95 is modelled by value semantics: the pager's request is its own value, so writes to it cannot reach the caller's request.
- `__getattr__` is modelled as access to the held response. Python's dynamic attribute lookup by name is not modelled.
- `__repr__` (lines 121-122) only formats text and is not modelled.
- The request and response message schemas are not modelled. Only the page token and the repeated item field matter to the pager.
- Pagers.Pager.Pages and Pagers.Pager.Items: the consumer's laziness is modelled per page, through the bound `maxPages`. A consumer that stops in the middle of a page's items, and a server that never stops issuing tokens, are only covered up to that bound.
