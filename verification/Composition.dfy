/** Listings whose every page is fetched through the client's retry loop. */
module Composition {
  import opened Prelude
  import opened Listing
  import opened Readings
  import opened Walk
  import opened Iterators
  import opened PageIterators
  import opened Clients
  import opened Exchange

  /**
   What happens to the attempts of each page fetch, by call number and the request sent: the world
   sees nothing of cursor and limit but what the request says of them.
   */
  type Scripts<!B> = (nat, Request) -> (nat -> Moment<B>)

  /** The request for one page. */
  function PageRequest(target: (Uuid, nat) -> string, cursor: Uuid, limit: nat): Request {
    Request(GET, target(cursor, limit), [], None)
  }

  datatype Fetched<+B> = Got(body: B) | Lost(error: Error)

  /** One page fetch: a GET whose answer is decoded into the page. */
  function FetchPage<B>(policy: RetryPolicy, request: Request, script: nat -> Moment<B>): Fetched<B> {
    var run := Called(policy, request, true, script, 0);
    match run.result
    case Err(error) => Lost(error)
    case Ok =>
      LastAttempt(policy, request, true, script);
      Got(Delivered(script(run.attempts - 1).event).value)
  }

  ghost predicate Arrives<B>(policy: RetryPolicy, script: nat -> Moment<B>, j: nat, page: B) {
    && (forall i :: 0 <= i < j ==> Retryable(policy, true, true, script(i)) && !script(i).cancelledWaiting)
    && var last := script(j).event;
       last.Answered? && IsSuccess(last.status) && last.body == Decoded(page)
  }

  /**
   Fewer failures in a row than the policy has attempts, each of them retryable with its delay
   within the cap and its wait undisturbed, and then the page.
   */
  ghost predicate ComesThrough<B>(policy: RetryPolicy, script: nat -> Moment<B>, page: B) {
    exists j: nat :: (j == 0 || j < policy.maxAttempts) && Arrives(policy, script, j, page)
  }

  /** Whatever else may happen, a decoded 2xx answer is the page. */
  ghost predicate SpeaksTruly<B>(script: nat -> Moment<B>, page: B) {
    forall i: nat :: script(i).event.Answered? && IsSuccess(script(i).event.status) && script(i).event.body.Decoded? ==>
                       script(i).event.body.value == page
  }

  lemma {:induction false} AttemptsUpTo<B>(policy: RetryPolicy, script: nat -> Moment<B>, j: nat, page: B, at: nat)
    requires Arrives(policy, script, j, page) && at <= j && (j == 0 || j < policy.maxAttempts)
    ensures Attempts(policy, true, true, script, at, at + 1) == j - at + 1
    decreases j - at
  {
    if at < j {
      AttemptsUpTo(policy, script, j, page, at + 1);
    }
  }

  /** A fetch is this page exactly when the page comes through. */
  lemma FetchExactly<B>(policy: RetryPolicy, request: Request, script: nat -> Moment<B>, page: B)
    requires request.verb == GET
    ensures FetchPage(policy, request, script) == Got(page) <==> ComesThrough(policy, script, page)
  {
    if ComesThrough(policy, script, page) {
      var j: nat :| (j == 0 || j < policy.maxAttempts) && Arrives(policy, script, j, page);
      AttemptsUpTo(policy, script, j, page, 0);
    }
    if FetchPage(policy, request, script) == Got(page) {
      hide Retryable;
      LongestRetryablePrefix(policy, true, true, script, 0, 1);
      LastAttempt(policy, request, true, script);
      var j := Called(policy, request, true, script, 0).attempts - 1;
      assert Arrives(policy, script, j, page);
    }
  }

  lemma FetchSpeaksTruly<B>(policy: RetryPolicy, request: Request, script: nat -> Moment<B>, page: B)
    requires SpeaksTruly(script, page) && request.verb == GET
    ensures FetchPage(policy, request, script).Lost? || FetchPage(policy, request, script) == Got(page)
  {
    hide Called;
    LastAttempt(policy, request, true, script);
  }

  // Bare listings.

  function Through<T>(policy: RetryPolicy, target: (Uuid, nat) -> string, scripts: Scripts<seq<T>>,
                      key: T -> Uuid): Feed<T, Error> {
    Feed((n, cursor, limit) =>
           var request := PageRequest(target, cursor, limit);
           match FetchPage(policy, request, scripts(n, request))
           case Got(rows) => Rows(rows)
           case Lost(error) => Broken(error),
         key)
  }

  /** The listing as it grows at the front, call after call. */
  ghost predicate Grows<T(!new)>(key: T -> Uuid, at: nat -> seq<Group<T>>) {
    forall n: nat :: WellFormed(key, at(n)) && GrownFrom(at(n), at(0))
  }

  /** When every fetch comes through, the whole listing does, retries notwithstanding. */
  method CollectThrough<T(!new)>(policy: RetryPolicy, target: (Uuid, nat) -> string, scripts: Scripts<seq<T>>,
                                 key: T -> Uuid, requested: int, ghost at: nat -> seq<Group<T>>)
    returns (out: seq<T>, error: Option<WalkError<Error>>, calls: seq<Call>)
    requires Grows(key, at)
    requires forall n: nat, c: Uuid, l: nat ::
               ComesThrough(policy, scripts(n, Request(GET, target(c, l), [], None)),
                            Listing.Page(at(n), c, l, SERVICE_CEILING))
    ensures out == Flatten(at(0)) && error.None?
    ensures |calls| == |at(0)| / BoundedPageSize(requested) + 1
  {
    var feed := Through(policy, target, scripts, key);
    forall n: nat, c: Uuid, l: nat
      ensures feed.fetch(n, c, l) == Rows(Listing.Page(at(n), c, l, SERVICE_CEILING))
    {
      var request := PageRequest(target, c, l);
      FetchExactly(policy, request, scripts(n, request), Listing.Page(at(n), c, l, SERVICE_CEILING));
    }
    out, error, calls := CollectListing(feed, requested, at);
  }

  /**
   Otherwise a prefix of the listing comes out, with the error of the last fetch: the result of
   its own run of the retry loop.
   */
  method CollectThroughOrError<T(!new)>(policy: RetryPolicy, target: (Uuid, nat) -> string, scripts: Scripts<seq<T>>,
                                        key: T -> Uuid, requested: int, ghost at: nat -> seq<Group<T>>)
    returns (out: seq<T>, error: Option<WalkError<Error>>, calls: seq<Call>)
    requires Grows(key, at)
    requires forall n: nat, c: Uuid, l: nat ::
               SpeaksTruly(scripts(n, Request(GET, target(c, l), [], None)),
                           Listing.Page(at(n), c, l, SERVICE_CEILING))
    ensures out <= Flatten(at(0))
    ensures error.None? ==> out == Flatten(at(0))
    ensures error.Some? ==>
              && calls != [] && error.value.FetchFailed?
              && var last := calls[|calls| - 1];
                 var request := Request(GET, target(last.cursor, last.limit), [], None);
                 Called(policy, request, true, scripts(|calls| - 1, request), 0).result == Err(error.value.error)
  {
    var feed := Through(policy, target, scripts, key);
    forall n: nat, c: Uuid, l: nat
      ensures feed.fetch(n, c, l).Broken?
              || feed.fetch(n, c, l) == Rows(Listing.Page(at(n), c, l, SERVICE_CEILING))
    {
      var request := PageRequest(target, c, l);
      FetchSpeaksTruly(policy, request, scripts(n, request), Listing.Page(at(n), c, l, SERVICE_CEILING));
    }
    out, error, calls := CollectListingOrError(feed, requested, at);
    if error.Some? {
      var last := calls[|calls| - 1];
      assert feed.fetch(|calls| - 1, last.cursor, last.limit) == Broken(error.value.error);
      var request := PageRequest(target, last.cursor, last.limit);
      assert FetchPage(policy, request, scripts(|calls| - 1, request)) == Lost(error.value.error);
    }
  }

  // Listings in envelopes.

  /** The decoded body of such a page. */
  datatype Sheet<+T> = Sheet(rows: seq<T>, next: Option<Uuid>)

  function SheetAt<T>(pages: seq<seq<T>>, links: seq<Uuid>, i: nat): Sheet<T>
    requires i < |pages|
  {
    Sheet(pages[i], if i < |links| then Some(links[i]) else None)
  }

  function SheetsThrough<T>(policy: RetryPolicy, target: (Uuid, nat) -> string,
                            scripts: Scripts<Sheet<T>>): Fetch<T, Error> {
    (n: nat, cursor: Uuid, limit: nat) =>
      var request := PageRequest(target, cursor, limit);
      match FetchPage(policy, request, scripts(n, request))
      case Got(sheet) => PageIterators.Page(sheet.rows, sheet.next)
      case Lost(error) => Refused(error)
  }

  /** When every fetch along a chain of pages with rows comes through, the whole chain does. */
  method CollectSheets<T>(policy: RetryPolicy, target: (Uuid, nat) -> string, scripts: Scripts<Sheet<T>>,
                          requested: int, ghost pages: seq<seq<T>>, ghost links: seq<Uuid>)
    returns (out: seq<T>, error: Option<WalkError<Error>>, calls: seq<Call>)
    requires IsChain(pages, links) && forall i :: 0 <= i < |pages| ==> pages[i] != []
    requires forall n: nat, l: nat, i: nat :: i < |pages| ==>
               ComesThrough(policy, scripts(n, Request(GET, target(CursorOf(links, i), l), [], None)),
                            SheetAt(pages, links, i))
    ensures out == Concat(pages) && error.None? && |calls| == |pages|
  {
    var fetch := SheetsThrough(policy, target, scripts);
    forall n: nat, l: nat, i: nat | i < |pages|
      ensures fetch(n, CursorOf(links, i), l) == PageAt(pages, links, i)
    {
      var c := CursorOf(links, i);
      var request := PageRequest(target, c, l);
      FetchExactly(policy, request, scripts(n, request), SheetAt(pages, links, i));
    }
    out, error, calls := CollectChain(fetch, requested, pages, links);
  }

  /**
   Otherwise the pages before the failed fetch come out, with the result of that fetch's own run
   of the retry loop.
   */
  method CollectSheetsOrError<T>(policy: RetryPolicy, target: (Uuid, nat) -> string, scripts: Scripts<Sheet<T>>,
                                 requested: int, ghost pages: seq<seq<T>>, ghost links: seq<Uuid>)
    returns (out: seq<T>, error: Option<WalkError<Error>>, calls: seq<Call>)
    requires IsChain(pages, links)
    requires forall n: nat, l: nat, i: nat :: i < |pages| ==>
               SpeaksTruly(scripts(n, Request(GET, target(CursorOf(links, i), l), [], None)),
                           SheetAt(pages, links, i))
    ensures error.None? ==> out == Concat(pages[..FirstEmpty(pages)])
    ensures error.Some? ==>
              && 1 <= |calls| <= |pages| && out == Concat(pages[..|calls| - 1]) && error.value.FetchFailed?
              && var last := calls[|calls| - 1];
                 var request := Request(GET, target(last.cursor, last.limit), [], None);
                 Called(policy, request, true, scripts(|calls| - 1, request), 0).result == Err(error.value.error)
  {
    var fetch := SheetsThrough(policy, target, scripts);
    forall n: nat, l: nat, i: nat | i < |pages|
      ensures fetch(n, CursorOf(links, i), l).Refused? || fetch(n, CursorOf(links, i), l) == PageAt(pages, links, i)
    {
      var c := CursorOf(links, i);
      var request := PageRequest(target, c, l);
      FetchSpeaksTruly(policy, request, scripts(n, request), SheetAt(pages, links, i));
    }
    out, error, calls := CollectChainOrError(fetch, requested, pages, links);
    if error.Some? {
      var last := calls[|calls| - 1];
      assert fetch(|calls| - 1, last.cursor, last.limit) == Refused(error.value.error);
      var request := PageRequest(target, last.cursor, last.limit);
      assert FetchPage(policy, request, scripts(|calls| - 1, request)) == Lost(error.value.error);
    }
  }
}
