/** The iterator over a listing whose envelope names the next cursor: nothing is inferred from page lengths. */
module PageIterators {
  import opened Prelude
  import opened Listing
  import opened Orbits
  import opened Readings
  import opened Walk
  import opened Iterators

  datatype Envelope<+T, +E> = Page(rows: seq<T>, next: Option<Uuid>) | Refused(error: E)

  /** The listing call; as for Feed, its first argument counts the calls before it. */
  type Fetch<!T, !E> = (nat, Uuid, nat) -> Envelope<T, E>

  function Understood<T, E>(fetch: Fetch<T, E>): Reader<T, E> {
    (n: nat, cursor: Uuid, limit: nat) =>
      match fetch(n, cursor, limit)
      case Refused(error) => Reading([], Wrong(FetchFailed(error)))
      case Page(rows, next) =>
        Reading(rows,
                if next == Some(cursor) && cursor != NIL then Wrong(Stalled(cursor))
                else if rows == [] || next.None? then Over
                else Onward(next.value))
  }

  /** The plain reading of such a listing, at most fuel calls of it. */
  ghost function Followed<T, E>(fetch: Fetch<T, E>, limit: nat, n: nat, cursor: Uuid, fuel: nat): Trip<T, E> {
    Plain(Understood(fetch), limit, n, cursor, fuel)
  }

  lemma FollowedOnce<T, E>(fetch: Fetch<T, E>, limit: nat, n: nat, cursor: Uuid, fuel: nat)
    requires fuel > 0
    ensures var answer := fetch(n, cursor, limit);
            var t := Followed(fetch, limit, n, cursor, fuel); var sent := [Call(cursor, limit)];
            if answer.Refused? then t == Trip([], Failed(FetchFailed(answer.error)), sent)
            else if answer.next == Some(cursor) && cursor != NIL then t == Trip([], Failed(Stalled(cursor)), sent)
            else if answer.rows == [] || answer.next.None? then t == Trip(answer.rows, Finished, sent)
            else Remains(t, Followed(fetch, limit, n + 1, answer.next.value, fuel - 1), answer.rows, sent)
  {
  }

  lemma FollowedNoFuel<T, E>(fetch: Fetch<T, E>, limit: nat, n: nat, cursor: Uuid)
    ensures Followed(fetch, limit, n, cursor, 0) == Trip([], Cut, [])
  {
  }

  class PageIterator<T, E> {
    const fetch: Fetch<T, E>
    var limit: nat
    var cursor: Uuid
    var page: seq<T>
    var pos: nat
    var done: bool
    var err: Option<WalkError<E>>
    var started: bool
    var calls: seq<Call>

    ghost predicate Alive()
      reads this
    {
      !done && err.None?
    }

    ghost predicate Valid()
      reads this
    {
      && pos <= |page| && 1 <= limit <= SERVICE_CEILING
      && (err.Some? ==> pos == |page|)
      && (!started ==> calls == [] && cursor == NIL && page == [] && Alive())
    }

    ghost predicate Ended()
      reads this
    {
      pos == |page| && !Alive()
    }

    ghost function Future(fuel: nat): Trip<T, E>
      reads this
      requires Valid()
    {
      var buffered := page[pos..];
      if err.Some? then Trip(buffered, Failed(err.value), [])
      else if done then Trip(buffered, Finished, [])
      else
        var walk := Followed(fetch, limit, |calls|, cursor, fuel);
        Trip(buffered + walk.items, walk.end, walk.calls)
    }

    constructor (fetch: Fetch<T, E>)
      ensures Valid() && this.fetch == fetch && !started && calls == [] && limit == DEFAULT_PAGE_SIZE
      ensures forall fuel: nat :: Future(fuel) == Followed(fetch, DEFAULT_PAGE_SIZE, 0, NIL, fuel)
    {
      this.fetch := fetch;
      limit, cursor := DEFAULT_PAGE_SIZE, NIL;
      page, pos, done, err, started := [], 0, false, None, false;
      calls := [];
      new;
      forall fuel: nat
        ensures Future(fuel) == Followed(fetch, DEFAULT_PAGE_SIZE, 0, NIL, fuel)
      {
        assert page[pos..] + Followed(fetch, limit, 0, NIL, fuel).items == Followed(fetch, limit, 0, NIL, fuel).items;
      }
    }

    method PageSize(n: int)
      requires Valid()
      modifies this`limit
      ensures Valid()
      ensures old(started) ==> limit == old(limit)
      ensures !old(started) ==>
                && limit == BoundedPageSize(n)
                && forall fuel: nat :: Future(fuel) == Followed(fetch, limit, 0, NIL, fuel)
    {
      if !started {
        limit := BoundedPageSize(n);
        forall fuel: nat
          ensures Future(fuel) == Followed(fetch, limit, 0, NIL, fuel)
        {
          assert page[pos..] + Followed(fetch, limit, 0, NIL, fuel).items == Followed(fetch, limit, 0, NIL, fuel).items;
        }
      }
    }

    /** The second half of Next: the buffer is used up and the listing is not known to be over. */
    method FetchPage(ghost fuel: nat) returns (ok: bool)
      requires Valid() && Alive() && pos == |page| && fuel > 0
      modifies this
      ensures Valid() && limit == old(limit)
      ensures calls == old(calls) + [Call(old(cursor), limit)]
      ensures ok ==> pos == 1 <= |page| && err.None?
      ensures !ok ==> Ended() && page == old(page)
      ensures Remains(old(Future(fuel)), Future(fuel - 1), if ok then [page[0]] else [], [Call(old(cursor), limit)])
    {
      hide Followed;
      ghost var walk := Followed(fetch, limit, |calls|, cursor, fuel);
      FollowedOnce(fetch, limit, |calls|, cursor, fuel);
      assert Future(fuel) == walk by {
        assert page[pos..] + walk.items == walk.items;
      }
      started := true;
      var answer := fetch(|calls|, cursor, limit);
      calls := calls + [Call(cursor, limit)];
      if answer.Refused? {
        err := Some(FetchFailed(answer.error));
        return false;
      }
      var rows, next := answer.rows, answer.next;
      if next.None? {
        done := true;
      } else if next.value == cursor && cursor != NIL {
        err := Some(Stalled(next.value));
        return false;
      } else {
        cursor := next.value;
      }
      if |rows| == 0 {
        done := true;
        return false;
      }
      page, pos := rows, 1;
      Uncons(rows, Followed(fetch, limit, |calls|, cursor, fuel - 1).items);
      return true;
    }

    method Next(ghost fuel: nat) returns (ok: bool)
      requires Valid()
      requires fuel > 0 || !Alive() || pos < |page|
      modifies this
      ensures Valid() && limit == old(limit)
      ensures old(calls) <= calls && |calls| <= |old(calls)| + 1
      ensures |calls| > |old(calls)| ==> fuel > 0 && old(Alive() && pos == |page|)
      ensures ok ==> 0 < pos <= |page| && err.None?
      ensures !ok ==> Ended()
      ensures old(Ended()) ==> !ok && calls == old(calls) && err == old(err)
      ensures !ok ==> Future(fuel - (|calls| - |old(calls)|)).items == []
      ensures Remains(old(Future(fuel)), Future(fuel - (|calls| - |old(calls)|)),
                      if ok then [page[pos - 1]] else [], calls[|old(calls)|..])
    {
      if err.Some? {
        return false;
      }
      if pos < |page| {
        pos := pos + 1;
        assert old(page[pos..]) == [page[pos - 1]] + page[pos..];
        return true;
      }
      if done {
        return false;
      }
      ok := FetchPage(fuel);
    }

    function Item(): T
      reads this
      requires 0 < pos <= |page|
    {
      page[pos - 1]
    }

    method Collect(ghost fuel: nat) returns (out: seq<T>, error: Option<WalkError<E>>)
      requires Valid() && !Future(fuel).end.Cut?
      modifies this
      ensures Valid() && Ended() && limit == old(limit)
      ensures var was := old(Future(fuel));
              out == was.items && error == Report(was.end) && calls == old(calls) + was.calls
    {
      hide Followed, Remains;
      out := [];
      ghost var whole := Future(fuel);
      ghost var left: nat := fuel;
      ghost var sent: seq<Call> := [];
      Untouched(whole);
      var more := true;
      while more
        invariant Valid() && limit == old(limit) && calls == old(calls) + sent
        invariant !Future(left).end.Cut? && |out| <= |whole.items|
        invariant Remains(whole, Future(left), out, sent)
        invariant !more ==> Ended() && Future(left).items == []
        decreases more, |whole.items| - |out|
      {
        FollowedNoFuel(fetch, limit, |calls|, cursor);
        ghost var before, here := calls, Future(left);
        more := Next(left);
        ghost var made := calls[|before|..];
        left := left - |made|;
        ghost var got := if more then [page[pos - 1]] else [];
        SameEnd(here, Future(left), got, made);
        RemainsTrans(whole, here, Future(left), out, sent, got, made);
        sent := sent + made;
        if more {
          out := out + [Item()];
        } else {
          assert out + got == out;
        }
      }
      NothingRemains(whole, Future(left), out, sent);
      error := err;
    }
  }

  // Any server.

  /** Against any server: two calls running with one cursor can only be two calls without a cursor. */
  lemma OnlyNilRepeats<T, E>(fetch: Fetch<T, E>, limit: nat, n: nat, cursor: Uuid, fuel: nat)
    ensures var calls := Followed(fetch, limit, n, cursor, fuel).calls;
            && (fuel > 0 ==> calls != [] && calls[0].cursor == cursor)
            && (forall i :: 0 <= i < |calls| ==> calls[i].limit == limit)
            && (forall i :: 0 < i < |calls| && calls[i].cursor == calls[i - 1].cursor ==> calls[i].cursor == NIL)
  {
    CallsFollow(Understood(fetch), limit, n, cursor, fuel);
    var calls := Followed(fetch, limit, n, cursor, fuel).calls;
    forall i | 0 < i < |calls| && calls[i].cursor == calls[i - 1].cursor
      ensures calls[i].cursor == NIL
    {
      assert Understood(fetch)(n + i - 1, calls[i - 1].cursor, limit).turn == Onward(calls[i].cursor);
    }
  }

  predicate LeadsTo<T, E>(answer: Envelope<T, E>, next: Uuid) {
    answer.Page? && answer.rows != [] && answer.next == Some(next)
  }

  /**
   Against any server: every call but the first sends the cursor that the envelope before it
   named, and what comes out is the pages received, in order and complete, except that the page
   which fails the reading is withheld whole.
   */
  lemma AnyEnvelopes<T, E>(fetch: Fetch<T, E>, limit: nat, n: nat, cursor: Uuid, fuel: nat)
    ensures var t := Followed(fetch, limit, n, cursor, fuel);
            && (forall i :: 0 < i < |t.calls| ==>
                  LeadsTo(fetch(n + i - 1, t.calls[i - 1].cursor, limit), t.calls[i].cursor))
            && (t.end.Failed? ==> t.calls != [])
            && t.items == Received(Understood(fetch), n, if t.end.Failed? then t.calls[..|t.calls| - 1] else t.calls)
  {
    hide Plain, Received;
    CallsFollow(Understood(fetch), limit, n, cursor, fuel);
    LastCallDecides(Understood(fetch), limit, n, cursor, fuel);
    ItemsAreReceived(Understood(fetch), limit, n, cursor, fuel);
    var calls := Followed(fetch, limit, n, cursor, fuel).calls;
    forall i | 0 < i < |calls|
      ensures LeadsTo(fetch(n + i - 1, calls[i - 1].cursor, limit), calls[i].cursor)
    {
      assert Understood(fetch)(n + i - 1, calls[i - 1].cursor, limit).turn == Onward(calls[i].cursor);
    }
  }

  /** Against any server, a reading that a call's error ends reports the error of its own last call. */
  lemma PageErrorIsTheLastAnswer<T, E>(fetch: Fetch<T, E>, limit: nat, n: nat, cursor: Uuid, fuel: nat)
    ensures var t := Followed(fetch, limit, n, cursor, fuel);
            t.end.Failed? && t.end.error.FetchFailed? ==>
              && t.calls != []
              && var last := t.calls[|t.calls| - 1];
                 fetch(n + |t.calls| - 1, last.cursor, last.limit) == Refused(t.end.error.error)
  {
    LastCallDecides(Understood(fetch), limit, n, cursor, fuel);
  }

  // Chains of pages.

  /** The cursor under which the i-th page is asked for. */
  function CursorOf(links: seq<Uuid>, i: nat): Uuid
    requires i <= |links|
  {
    if i == 0 then NIL else links[i - 1]
  }

  /** links[i] leads from page i to page i + 1; no link is nil and none repeats. */
  ghost predicate IsChain<T>(pages: seq<seq<T>>, links: seq<Uuid>) {
    && |pages| == |links| + 1
    && (forall i :: 0 <= i < |links| ==> links[i] != NIL)
    && (forall i, j :: 0 <= i < j < |links| ==> links[i] != links[j])
  }

  function PageAt<T, E>(pages: seq<seq<T>>, links: seq<Uuid>, i: nat): Envelope<T, E>
    requires i < |pages|
  {
    Page(pages[i], if i < |links| then Some(links[i]) else None)
  }

  /** Every call under a cursor of the chain is refused or answered with that page. */
  ghost predicate ServesChainOrBreaks<T, E>(fetch: Fetch<T, E>, pages: seq<seq<T>>, links: seq<Uuid>) {
    && IsChain(pages, links)
    && forall n: nat, limit: nat, i: nat :: i < |pages| ==>
         var answer := fetch(n, CursorOf(links, i), limit);
         answer.Refused? || answer == PageAt(pages, links, i)
  }

  /** The same, with every call answered. */
  ghost predicate ServesChain<T, E>(fetch: Fetch<T, E>, pages: seq<seq<T>>, links: seq<Uuid>) {
    && IsChain(pages, links)
    && forall n: nat, limit: nat, i: nat :: i < |pages| ==>
         fetch(n, CursorOf(links, i), limit) == PageAt(pages, links, i)
  }

  function Concat<T>(pages: seq<seq<T>>): seq<T> {
    if pages == [] then [] else pages[0] + Concat(pages[1..])
  }

  /** The position of the first empty page, or the number of pages. */
  function FirstEmpty<T>(pages: seq<seq<T>>): (k: nat)
    ensures k <= |pages|
    ensures k < |pages| ==> pages[k] == []
    ensures forall i :: 0 <= i < k ==> pages[i] != []
  {
    if pages == [] || pages[0] == [] then 0 else 1 + FirstEmpty(pages[1..])
  }

  /** How far the walk gets along a chain: to its last page, or to the first empty one. */
  function Looked<T>(pages: seq<seq<T>>): (n: nat)
    ensures n <= |pages|
    ensures n == |pages| || n == FirstEmpty(pages) + 1
  {
    Min(FirstEmpty(pages) + 1, |pages|)
  }

  /**
   From page i on, along the chain's own cursors: the pages before the first empty one, whatever
   their lengths, with one call for each page looked at; or, if a call fails, exactly the pages
   before that call.
   */
  lemma {:induction false} FollowsChainOrError<T, E>(fetch: Fetch<T, E>, pages: seq<seq<T>>, links: seq<Uuid>,
                                                     limit: nat, n: nat, i: nat, fuel: nat)
    requires ServesChainOrBreaks(fetch, pages, links) && i < Looked(pages) && fuel >= |pages| - i
    ensures var t := Followed(fetch, limit, n, CursorOf(links, i), fuel);
            && 1 <= |t.calls| <= Looked(pages) - i
            && (forall j :: 0 <= j < |t.calls| ==> t.calls[j] == Call(CursorOf(links, i + j), limit))
            && if t.end.Finished? then
                 t.items == Concat(pages[i..FirstEmpty(pages)]) && |t.calls| == Looked(pages) - i
               else
                 t.end.Failed? && t.end.error.FetchFailed? && t.items == Concat(pages[i..i + |t.calls| - 1])
    decreases fuel
  {
    hide Followed, FirstEmpty;
    FollowedOnce(fetch, limit, n, CursorOf(links, i), fuel);
    var k, answer := FirstEmpty(pages), fetch(n, CursorOf(links, i), limit);
    if answer == PageAt(pages, links, i) && i < k {
      assert pages[i..k][1..] == pages[i + 1..k];
      if i < |links| {
        assert CursorOf(links, i + 1) == links[i];
        FollowsChainOrError(fetch, pages, links, limit, n + 1, i + 1, fuel - 1);
        var made := |Followed(fetch, limit, n, CursorOf(links, i), fuel).calls|;
        assert pages[i..i + made - 1][1..] == pages[i + 1..i + made - 1];
      }
    }
  }

  lemma ServedIsNotBroken<T, E>(fetch: Fetch<T, E>, pages: seq<seq<T>>, links: seq<Uuid>)
    requires ServesChain(fetch, pages, links)
    ensures ServesChainOrBreaks(fetch, pages, links)
  {
  }

  lemma Served<T, E>(fetch: Fetch<T, E>, pages: seq<seq<T>>, links: seq<Uuid>, limit: nat, n: nat, i: nat)
    requires ServesChain(fetch, pages, links) && i < |pages|
    ensures fetch(n, CursorOf(links, i), limit) == PageAt(pages, links, i)
    ensures |pages| == |links| + 1
  {
  }

  /** Without a failing call: all of it. */
  lemma FollowsChain<T, E>(fetch: Fetch<T, E>, pages: seq<seq<T>>, links: seq<Uuid>,
                           limit: nat, n: nat, i: nat, fuel: nat)
    requires ServesChain(fetch, pages, links) && i < |pages| && i <= FirstEmpty(pages)
    requires fuel >= |pages| - i
    ensures var t := Followed(fetch, limit, n, CursorOf(links, i), fuel);
            && t.items == Concat(pages[i..FirstEmpty(pages)]) && t.end == Finished
            && |t.calls| == Min(FirstEmpty(pages) + 1, |pages|) - i
            && forall j :: 0 <= j < |t.calls| ==> t.calls[j] == Call(CursorOf(links, i + j), limit)
  {
    hide Followed, Concat, FirstEmpty, ServesChain, ServesChainOrBreaks;
    ServedIsNotBroken(fetch, pages, links);
    Served(fetch, pages, links, limit, n, i);
    FollowsChainOrError(fetch, pages, links, limit, n, i, fuel);
    PageErrorIsTheLastAnswer(fetch, limit, n, CursorOf(links, i), fuel);
    var last := |Followed(fetch, limit, n, CursorOf(links, i), fuel).calls| - 1;
    Served(fetch, pages, links, limit, n + last, i + last);
  }

  /** The whole walk along a chain, with the error of the call that ended it, if one did. */
  lemma WholeChainOrError<T, E>(fetch: Fetch<T, E>, pages: seq<seq<T>>, links: seq<Uuid>, limit: nat)
    requires ServesChainOrBreaks(fetch, pages, links)
    ensures var t := Followed(fetch, limit, 0, NIL, |pages|);
            && 1 <= |t.calls| <= Looked(pages)
            && (forall i :: 0 <= i < |t.calls| ==> t.calls[i] == Call(CursorOf(links, i), limit))
            && if t.end.Finished? then
                 t.items == Concat(pages[..FirstEmpty(pages)]) && |t.calls| == Looked(pages)
               else
                 && t.end.Failed? && t.end.error.FetchFailed? && t.items == Concat(pages[..|t.calls| - 1])
                 && fetch(|t.calls| - 1, CursorOf(links, |t.calls| - 1), limit) == Refused(t.end.error.error)
  {
    hide Followed, Concat, FirstEmpty;
    FollowsChainOrError(fetch, pages, links, limit, 0, 0, |pages|);
    PageErrorIsTheLastAnswer(fetch, limit, 0, NIL, |pages|);
    var made := |Followed(fetch, limit, 0, NIL, |pages|).calls|;
    assert pages[0..FirstEmpty(pages)] == pages[..FirstEmpty(pages)] && pages[0..made - 1] == pages[..made - 1];
  }

  lemma {:induction false} ConcatSplit<T>(a: seq<seq<T>>, b: seq<seq<T>>)
    ensures Concat(a + b) == Concat(a) + Concat(b)
  {
    if a == [] {
      assert a + b == b;
    } else {
      assert (a + b)[1..] == a[1..] + b;
      ConcatSplit(a[1..], b);
    }
  }

  lemma {:induction false} ConcatEmpty<T>(pages: seq<seq<T>>)
    ensures Concat(pages) == [] <==> (forall i :: 0 <= i < |pages| ==> pages[i] == [])
  {
    if pages != [] {
      ConcatEmpty(pages[1..]);
      if Concat(pages) == [] {
        forall i | 0 <= i < |pages|
          ensures pages[i] == []
        {
          assert i > 0 ==> pages[i] == pages[1..][i - 1];
        }
      }
    }
  }

  lemma WholeUnlessMore<T>(pages: seq<seq<T>>, k: nat)
    requires k <= |pages|
    ensures Concat(pages[..k]) == Concat(pages) <==> forall i :: k <= i < |pages| ==> pages[i] == []
  {
    assert pages == pages[..k] + pages[k..];
    ConcatSplit(pages[..k], pages[k..]);
    ConcatEmpty(pages[k..]);
    assert forall i :: k <= i < |pages| ==> pages[i] == pages[k..][i - k];
  }

  /**
   The walk over a chain is complete exactly when nothing follows the first empty page: an
   empty page ends it even when the envelope names a next cursor.
   */
  lemma CompleteChainExactly<T, E>(fetch: Fetch<T, E>, pages: seq<seq<T>>, links: seq<Uuid>, limit: nat)
    requires ServesChain(fetch, pages, links)
    ensures var t := Followed(fetch, limit, 0, NIL, |pages|);
            && t.end == Finished
            && (t.items == Concat(pages) <==> forall i :: FirstEmpty(pages) <= i < |pages| ==> pages[i] == [])
            && (FirstEmpty(pages) == |pages| ==> |t.calls| == |pages|)
  {
    FollowsChain(fetch, pages, links, limit, 0, 0, |pages|);
    hide ServesChain, Followed, Concat;
    var k := FirstEmpty(pages);
    WholeUnlessMore(pages, k);
    assert pages[..k] == pages[0..k];
  }

  // Which readings return.

  /** The envelopes' own order: the next cursor of a page that has rows. */
  function NextCursor<T, E>(fetch: Fetch<T, E>, limit: nat): Uuid -> Option<Uuid> {
    (c: Uuid) =>
      match fetch(0, c, limit)
      case Refused(_) => None
      case Page(rows, next) => if rows == [] then None else next
  }

  /** The answers under these cursors do not depend on the calls before, and lead to none but these cursors. */
  ghost predicate SteadyPages<T, E>(fetch: Fetch<T, E>, limit: nat, cursors: set<Uuid>) {
    && (forall n: nat, c: Uuid :: c in cursors ==> fetch(n, c, limit) == fetch(0, c, limit))
    && Closed(NextCursor(fetch, limit), cursors)
  }

  lemma SteadyPagesAreMemoryless<T, E>(fetch: Fetch<T, E>, limit: nat, cursors: set<Uuid>)
    requires SteadyPages(fetch, limit, cursors)
    ensures Memoryless(Understood(fetch), limit, cursors)
    ensures IsGuarded(NextCursor(fetch, limit), NextOf(Understood(fetch), limit), Some(NIL))
  {
    var next := NextOf(Understood(fetch), limit);
    forall x | x in cursors && next(x).Some?
      ensures next(x).value in cursors
    {
      assert NextCursor(fetch, limit)(x) == next(x);
    }
  }

  /**
   Which readings return, on a server without memory: exactly those on which the envelopes do not
   go round a circle of two cursors or more, nor from the nil cursor to itself. A reading that
   returns does so within as many calls as there are cursors.
   */
  lemma FollowedReturnsExactly<T, E>(fetch: Fetch<T, E>, limit: nat, cursors: set<Uuid>, n: nat, cursor: Uuid)
    requires SteadyPages(fetch, limit, cursors) && cursor in cursors
    ensures (exists fuel: nat :: !Followed(fetch, limit, n, cursor, fuel).end.Cut?)
            <==> !Circles(NextCursor(fetch, limit), cursor, Some(NIL))
    ensures !Circles(NextCursor(fetch, limit), cursor, Some(NIL)) ==>
              !Followed(fetch, limit, n, cursor, |cursors|).end.Cut?
  {
    SteadyPagesAreMemoryless(fetch, limit, cursors);
    ReturnsExactly(Understood(fetch), limit, cursors, n, cursor);
    GuardMisses(NextCursor(fetch, limit), NextOf(Understood(fetch), limit), Some(NIL), cursor);
    if Returns(Understood(fetch), limit, n, cursor) {
      assert !Followed(fetch, limit, n, cursor, |cursors|).end.Cut?;
    }
  }

  /** The same with no word about cursors: there are finitely many in any case. */
  lemma SteadyFollowedReturns<T, E>(fetch: Fetch<T, E>, limit: nat, n: nat, cursor: Uuid)
    requires forall m: nat, c: Uuid :: fetch(m, c, limit) == fetch(0, c, limit)
    ensures (exists fuel: nat :: !Followed(fetch, limit, n, cursor, fuel).end.Cut?)
            <==> !Circles(NextCursor(fetch, limit), cursor, Some(NIL))
  {
    var all := AllUuids();
    FollowedReturnsExactly(fetch, limit, all, n, cursor);
  }

  /** How an answer ends a reading that led to this cursor. */
  function Closing<T, E>(answer: Envelope<T, E>, cursor: Uuid): End<E> {
    match answer
    case Refused(error) => Failed(FetchFailed(error))
    case Page(_, next) => if next == Some(cursor) && cursor != NIL then Failed(Stalled(cursor)) else Finished
  }

  /**
   What such a reading comes to: it asks along the envelopes' own order, to its end or to a
   cursor that leads to itself.
   */
  lemma SteadyFollowed<T, E>(fetch: Fetch<T, E>, limit: nat, cursors: set<Uuid>, n: nat, cursor: Uuid)
    requires SteadyPages(fetch, limit, cursors) && cursor in cursors
    requires !Circles(NextCursor(fetch, limit), cursor, Some(NIL))
    ensures var t := Followed(fetch, limit, n, cursor, |cursors|); var next := NextCursor(fetch, limit);
            && 1 <= |t.calls| <= |cursors|
            && (forall i :: 0 <= i < |t.calls| ==>
                  t.calls[i].limit == limit && After(next, cursor, i) == Some(t.calls[i].cursor))
            && (var last := t.calls[|t.calls| - 1].cursor;
                && (next(last).None? || next(last) == Some(last))
                && t.end == Closing(fetch(0, last, limit), last))
            && t.items == Received(Understood(fetch), n, if t.end.Failed? then t.calls[..|t.calls| - 1] else t.calls)
  {
    hide Plain, Received;
    var reader, fuel := Understood(fetch), |cursors|;
    FollowedReturnsExactly(fetch, limit, cursors, n, cursor);
    SteadyPagesAreMemoryless(fetch, limit, cursors);
    CallsFollow(reader, limit, n, cursor, fuel);
    LastCallDecides(reader, limit, n, cursor, fuel);
    CallsAreTheWay(reader, limit, cursors, n, cursor, fuel);
    ItemsAreReceived(reader, limit, n, cursor, fuel);
    var calls := Plain(reader, limit, n, cursor, fuel).calls;
    forall i | 0 <= i < |calls|
      ensures After(NextCursor(fetch, limit), cursor, i) == Some(calls[i].cursor) && calls[i].cursor in cursors
    {
      GuardedSoFar(NextCursor(fetch, limit), NextOf(reader, limit), Some(NIL), cursor, i);
      StaysIn(NextOf(reader, limit), cursors, cursor, i);
    }
  }

  /** A reading that is not over has sent as many cursors as it was allowed, each of them one of these. */
  lemma EndlessFollowed<T, E>(fetch: Fetch<T, E>, limit: nat, cursors: set<Uuid>, n: nat, cursor: Uuid, fuel: nat)
    requires SteadyPages(fetch, limit, cursors) && cursor in cursors
    requires Followed(fetch, limit, n, cursor, fuel).end.Cut?
    ensures var calls := Followed(fetch, limit, n, cursor, fuel).calls;
            |calls| == fuel && forall i :: 0 <= i < fuel ==> calls[i].cursor in cursors
  {
    var reader := Understood(fetch);
    SteadyPagesAreMemoryless(fetch, limit, cursors);
    LastCallDecides(reader, limit, n, cursor, fuel);
    CallsAreTheWay(reader, limit, cursors, n, cursor, fuel);
    hide Plain;
    var calls := Plain(reader, limit, n, cursor, fuel).calls;
    forall i | 0 <= i < fuel
      ensures calls[i].cursor in cursors
    {
      StaysIn(NextOf(reader, limit), cursors, cursor, i);
    }
  }

  lemma NilCircles<T, E>(fetch: Fetch<T, E>, limit: nat, rows: seq<T>)
    requires rows != [] && fetch(0, NIL, limit) == Page(rows, Some(NIL))
    ensures Circles(NextCursor(fetch, limit), NIL, Some(NIL))
    ensures Closed(NextCursor(fetch, limit), {NIL})
  {
    var next := NextCursor(fetch, limit);
    assert After(next, NIL, 0) == Some(NIL);
    assert Meets(next, NIL, 0, 1) && Slips(next, NIL, 0, Some(NIL));
  }

  /**
   An envelope with rows that names the nil cursor, under the nil cursor, is such a circle: the
   guard lets it pass for ever.
   */
  lemma NilCursorNeverStalls<T, E>(fetch: Fetch<T, E>, limit: nat, n: nat, rows: seq<T>, fuel: nat)
    requires rows != [] && forall m: nat :: fetch(m, NIL, limit) == Page(rows, Some(NIL))
    ensures Circles(NextCursor(fetch, limit), NIL, Some(NIL))
    ensures var t := Followed(fetch, limit, n, NIL, fuel);
            t.end.Cut? && |t.calls| == fuel && forall i :: 0 <= i < fuel ==> t.calls[i].cursor == NIL
  {
    hide Followed, Circles, NextCursor;
    NilCircles(fetch, limit, rows);
    FollowedReturnsExactly(fetch, limit, {NIL}, n, NIL);
    assert Followed(fetch, limit, n, NIL, fuel).end.Cut?;
    EndlessFollowed(fetch, limit, {NIL}, n, NIL, fuel);
  }

  lemma WholeChain<T, E>(fetch: Fetch<T, E>, pages: seq<seq<T>>, links: seq<Uuid>, limit: nat)
    requires ServesChain(fetch, pages, links) && forall i :: 0 <= i < |pages| ==> pages[i] != []
    ensures var t := Followed(fetch, limit, 0, NIL, |pages|);
            && t.items == Concat(pages) && t.end == Finished && |t.calls| == |pages|
            && forall i :: 0 <= i < |t.calls| ==> t.calls[i] == Call(CursorOf(links, i), limit)
  {
    hide Followed, Concat;
    FollowsChain(fetch, pages, links, limit, 0, 0, |pages|);
    assert pages[0..FirstEmpty(pages)] == pages;
  }

  /** newPageIterator(...).PageSize(requested).Collect() over a chain of pages that all have rows. */
  method CollectChain<T, E>(fetch: Fetch<T, E>, requested: int, ghost pages: seq<seq<T>>, ghost links: seq<Uuid>)
    returns (out: seq<T>, error: Option<WalkError<E>>, calls: seq<Call>)
    requires ServesChain(fetch, pages, links) && forall i :: 0 <= i < |pages| ==> pages[i] != []
    ensures out == Concat(pages) && error.None?
    ensures |calls| == |pages|
    ensures forall i :: 0 <= i < |calls| ==> calls[i] == Call(CursorOf(links, i), BoundedPageSize(requested))
  {
    hide Followed, ServesChain, Concat, CursorOf;
    WholeChain(fetch, pages, links, BoundedPageSize(requested));
    var it := new PageIterator(fetch);
    it.PageSize(requested);
    out, error := it.Collect(|pages|);
    calls := it.calls;
    assert calls == Followed(fetch, BoundedPageSize(requested), 0, NIL, |pages|).calls;
  }

  /**
   The same when calls may fail and pages may be empty: the pages before the failure, and the
   error of the call that failed.
   */
  method CollectChainOrError<T, E>(fetch: Fetch<T, E>, requested: int, ghost pages: seq<seq<T>>, ghost links: seq<Uuid>)
    returns (out: seq<T>, error: Option<WalkError<E>>, calls: seq<Call>)
    requires ServesChainOrBreaks(fetch, pages, links)
    ensures 1 <= |calls| <= Looked(pages)
    ensures forall i :: 0 <= i < |calls| ==> calls[i] == Call(CursorOf(links, i), BoundedPageSize(requested))
    ensures error.None? ==> out == Concat(pages[..FirstEmpty(pages)]) && |calls| == Looked(pages)
    ensures error.Some? ==>
              && out == Concat(pages[..|calls| - 1]) && error.value.FetchFailed?
              && var last := calls[|calls| - 1];
                 fetch(|calls| - 1, last.cursor, last.limit) == Refused(error.value.error)
  {
    hide Followed, ServesChainOrBreaks, Concat, FirstEmpty, CursorOf;
    WholeChainOrError(fetch, pages, links, BoundedPageSize(requested));
    var it := new PageIterator(fetch);
    it.PageSize(requested);
    out, error := it.Collect(|pages|);
    calls := it.calls;
    assert calls == Followed(fetch, BoundedPageSize(requested), 0, NIL, |pages|).calls;
  }

  /**
   The same against a server without memory, of any other kind, unless its cursors circle: the
   call returns, having asked in the envelopes' own order, with the pages it received and the
   error of its last call.
   */
  method CollectSteadyPages<T, E>(fetch: Fetch<T, E>, requested: int, ghost cursors: set<Uuid>)
    returns (out: seq<T>, error: Option<WalkError<E>>, calls: seq<Call>)
    requires SteadyPages(fetch, BoundedPageSize(requested), cursors) && NIL in cursors
    requires !Circles(NextCursor(fetch, BoundedPageSize(requested)), NIL, Some(NIL))
    ensures 1 <= |calls| <= |cursors|
    ensures var limit := BoundedPageSize(requested); var next := NextCursor(fetch, limit);
            && (forall i :: 0 <= i < |calls| ==>
                  calls[i].limit == limit && After(next, NIL, i) == Some(calls[i].cursor))
            && var last := calls[|calls| - 1].cursor;
               && (next(last).None? || next(last) == Some(last))
               && error == Report(Closing(fetch(0, last, limit), last))
    ensures out == Received(Understood(fetch), 0, if error.Some? then calls[..|calls| - 1] else calls)
  {
    hide Followed, SteadyPages, Circles, Received, After, Closing;
    ghost var limit := BoundedPageSize(requested);
    FollowedReturnsExactly(fetch, limit, cursors, 0, NIL);
    SteadyFollowed(fetch, limit, cursors, 0, NIL);
    var it := new PageIterator(fetch);
    it.PageSize(requested);
    out, error := it.Collect(|cursors|);
    calls := it.calls;
    assert calls == Followed(fetch, limit, 0, NIL, |cursors|).calls;
  }
}
