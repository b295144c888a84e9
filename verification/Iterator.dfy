/** The iterator over a listing that carries no next-page marker: it infers the end by itself. */
module Iterators {
  import opened Prelude
  import opened Listing
  import opened Orbits
  import opened Readings
  import opened Walk

  const DEFAULT_PAGE_SIZE: nat := 100

  function BoundedPageSize(n: int): (limit: nat)
    ensures 1 <= limit <= 100 == SERVICE_CEILING
    ensures 1 <= n <= 100 ==> limit == n
    ensures !(1 <= n <= 100) ==> limit == 100
  {
    if n < 1 then DEFAULT_PAGE_SIZE else Min(n, DEFAULT_PAGE_SIZE)
  }

  /** The number of distinct cursor keys on a page, whatever its number of rows. */
  method CountKeys<T>(key: T -> Uuid, rows: seq<T>) returns (n: nat)
    ensures n == |KeysOf(key, rows)|
  {
    var distinct: set<Uuid> := {};
    for i := 0 to |rows|
      invariant distinct == KeysOf(key, rows[..i])
    {
      assert rows[..i + 1] == rows[..i] + [rows[i]];
      KeysOfConcat(key, rows[..i], [rows[i]]);
      assert KeysOf(key, [rows[i]]) == {key(rows[i])} by {
        assert key([rows[i]][0]) == key(rows[i]);
      }
      distinct := distinct + {key(rows[i])};
    }
    assert rows[..|rows|] == rows;
    n := |distinct|;
  }

  class Iterator<T, E> {
    const feed: Feed<T, E>
    var limit: nat
    var cursor: Uuid
    var page: seq<T>
    var pos: nat
    var done: bool
    var err: Option<WalkError<E>>
    var started: bool
    /** Every call made so far, oldest first. It is the record of what left the process. */
    var calls: seq<Call>

    /** More calls may follow. */
    ghost predicate Alive()
      reads this
    {
      !done && err.None?
    }

    ghost predicate Valid()
      reads this
    {
      && pos <= |page| && 1 <= limit <= SERVICE_CEILING
      && (err.Some? ==> pos == |page|)
      && (!started ==> calls == [] && cursor == NIL && page == [] && Alive())
    }

    /** Nothing is left: no buffered row and no further call. */
    ghost predicate Ended()
      reads this
    {
      pos == |page| && !Alive()
    }

    /** All that is still to come: the buffered rows, then the plain walk from the cursor. */
    ghost function Future(fuel: nat): Trip<T, E>
      reads this
      requires Valid()
    {
      var buffered := page[pos..];
      if err.Some? then Trip(buffered, Failed(err.value), [])
      else if done then Trip(buffered, Finished, [])
      else
        var walk := Walked(feed, limit, |calls|, cursor, fuel);
        Trip(buffered + walk.items, walk.end, walk.calls)
    }

    constructor (feed: Feed<T, E>)
      ensures Valid() && this.feed == feed && !started && calls == [] && limit == DEFAULT_PAGE_SIZE
      ensures forall fuel: nat :: Future(fuel) == Walked(feed, DEFAULT_PAGE_SIZE, 0, NIL, fuel)
    {
      this.feed := feed;
      limit, cursor := DEFAULT_PAGE_SIZE, NIL;
      page, pos, done, err, started := [], 0, false, None, false;
      calls := [];
      new;
      forall fuel: nat
        ensures Future(fuel) == Walked(feed, DEFAULT_PAGE_SIZE, 0, NIL, fuel)
      {
        assert page[pos..] + Walked(feed, limit, 0, NIL, fuel).items == Walked(feed, limit, 0, NIL, fuel).items;
      }
    }

    /** Before the first call it fixes the limit; afterwards it changes nothing at all. */
    method PageSize(n: int)
      requires Valid()
      modifies this`limit
      ensures Valid()
      ensures old(started) ==> limit == old(limit)
      ensures !old(started) ==>
                && limit == BoundedPageSize(n)
                && forall fuel: nat :: Future(fuel) == Walked(feed, limit, 0, NIL, fuel)
    {
      if !started {
        limit := BoundedPageSize(n);
        forall fuel: nat
          ensures Future(fuel) == Walked(feed, limit, 0, NIL, fuel)
        {
          assert page[pos..] + Walked(feed, limit, 0, NIL, fuel).items == Walked(feed, limit, 0, NIL, fuel).items;
        }
      }
    }

    /** The second half of Next: the buffer is used up and the listing is not known to be over. */
    method FetchPage(ghost fuel: nat) returns (ok: bool)
      requires Valid() && Alive() && pos == |page| && fuel > 0
      modifies this
      ensures Valid() && limit == old(limit)
      ensures calls == old(calls) + [Call(old(cursor), limit)]
      ensures ok ==> pos == 1 <= |page| && err.None?
      ensures !ok ==> Ended() && page == old(page)
      ensures Remains(old(Future(fuel)), Future(fuel - 1), if ok then [page[0]] else [], [Call(old(cursor), limit)])
    {
      hide Walked, KeysOf;
      ghost var walk := Walked(feed, limit, |calls|, cursor, fuel);
      OneCall(feed, limit, |calls|, cursor, fuel);
      assert Future(fuel) == walk by {
        assert page[pos..] + walk.items == walk.items;
      }
      started := true;
      var answer := feed.fetch(|calls|, cursor, limit);
      calls := calls + [Call(cursor, limit)];
      if answer.Broken? {
        err := Some(FetchFailed(answer.error));
        return false;
      }
      var rows := answer.rows;
      if |rows| == 0 {
        done := true;
        return false;
      }

      var distinct := CountKeys(feed.key, rows);
      var next := feed.key(rows[|rows| - 1]);
      if distinct < limit {
        done := true;
      } else if next == cursor {
        err := Some(Stalled(next));
        return false;
      }
      cursor := next;

      page, pos := rows, 1;
      Uncons(rows, Walked(feed, limit, |calls|, cursor, fuel - 1).items);
      return true;
    }

    /**
     Takes the next row of what is to come. fuel is how far ahead the contract looks: the
     statement holds for each choice.
     */
    method Next(ghost fuel: nat) returns (ok: bool)
      requires Valid()
      requires fuel > 0 || !Alive() || pos < |page|
      modifies this
      ensures Valid() && limit == old(limit)
      ensures old(calls) <= calls && |calls| <= |old(calls)| + 1
      ensures |calls| > |old(calls)| ==> fuel > 0 && old(Alive() && pos == |page|)
      ensures ok ==> 0 < pos <= |page| && err.None?
      ensures !ok ==> Ended()
      ensures old(Ended()) ==> !ok && calls == old(calls) && err == old(err)
      ensures !ok ==> Future(fuel - (|calls| - |old(calls)|)).items == []
      ensures Remains(old(Future(fuel)), Future(fuel - (|calls| - |old(calls)|)),
                      if ok then [page[pos - 1]] else [], calls[|old(calls)|..])
    {
      if err.Some? {
        return false;
      }
      if pos < |page| {
        pos := pos + 1;
        assert old(page[pos..]) == [page[pos - 1]] + page[pos..];
        return true;
      }
      if done {
        return false;
      }
      ok := FetchPage(fuel);
    }

    /** The current row. */
    function Item(): T
      reads this
      requires 0 < pos <= |page|
    {
      page[pos - 1]
    }

    /**
     The whole rest of the listing. The precondition says that the walk ends within fuel calls;
     against a server for which it never does, the source's loop does not end either.
     */
    method Collect(ghost fuel: nat) returns (out: seq<T>, error: Option<WalkError<E>>)
      requires Valid() && !Future(fuel).end.Cut?
      modifies this
      ensures Valid() && Ended() && limit == old(limit)
      ensures var was := old(Future(fuel));
              out == was.items && error == Report(was.end) && calls == old(calls) + was.calls
    {
      hide Walked, Remains;
      out := [];
      ghost var whole := Future(fuel);
      ghost var left: nat := fuel;
      ghost var sent: seq<Call> := [];
      Untouched(whole);
      var more := true;
      while more
        invariant Valid() && limit == old(limit) && calls == old(calls) + sent
        invariant !Future(left).end.Cut? && |out| <= |whole.items|
        invariant Remains(whole, Future(left), out, sent)
        invariant !more ==> Ended() && Future(left).items == []
        decreases more, |whole.items| - |out|
      {
        NoFuel(feed, limit, |calls|, cursor);
        ghost var before, here := calls, Future(left);
        more := Next(left);
        ghost var made := calls[|before|..];
        left := left - |made|;
        ghost var got := if more then [page[pos - 1]] else [];
        SameEnd(here, Future(left), got, made);
        RemainsTrans(whole, here, Future(left), out, sent, got, made);
        sent := sent + made;
        if more {
          out := out + [Item()];
        } else {
          assert out + got == out;
        }
      }
      NothingRemains(whole, Future(left), out, sent);
      error := err;
    }

    /**
     The loop that hands each row to a consumer. The consumer sees the rows yielded so far and says whether it
     wants more; when it does not, the loop stops where it is, with the rest of the walk still to
     come. The precondition says that the walk ends, or the consumer stops, within fuel calls.
     */
    method All(more: seq<T> -> bool, ghost fuel: nat)
      returns (yielded: seq<T>, error: Option<WalkError<E>>, stopped: bool, ghost rest: nat)
      requires Valid()
      requires Future(fuel).end.Cut? ==> !Wanted(more, Future(fuel).items)
      modifies this
      ensures Valid() && limit == old(limit)
      ensures old(calls) <= calls && (!stopped ==> Ended())
      ensures Consumed(more, old(Future(fuel)), yielded, error, calls[|old(calls)|..], stopped)
      ensures Remains(old(Future(fuel)), Future(rest), yielded, calls[|old(calls)|..])
    {
      hide Walked, Wanted, Consumed, Remains;
      yielded := [];
      ghost var whole := Future(fuel);
      ghost var left: nat := fuel;
      ghost var sent: seq<Call> := [];
      Untouched(whole);
      NothingWantedYet(more);
      while true
        invariant Valid() && limit == old(limit)
        invariant Remains(whole, Future(left), yielded, sent)
        invariant calls == old(calls) + sent
        invariant Wanted(more, yielded)
        decreases |whole.items| - |yielded|
      {
        NoFuel(feed, limit, |calls|, cursor);
        NotCutYet(more, whole, Future(left), yielded, sent);
        ghost var before, here := calls, Future(left);
        var ok := Next(left);
        ghost var made := calls[|before|..];
        left := left - |made|;
        RemainsTrans(whole, here, Future(left), yielded, sent, if ok then [page[pos - 1]] else [], made);
        assert calls == before + made;
        Reassociate(old(calls), sent, made);
        sent := sent + made;
        assert calls[|old(calls)|..] == sent;
        if !ok {
          assert yielded + [] == yielded;
          AllGiven(more, whole, Future(left), yielded, sent);
          return yielded, err, false, left;
        }
        if !more(yielded + [Item()]) {
          StoppedHere(more, whole, Future(left), yielded, Item(), sent);
          return yielded + [Item()], None, true, left;
        }
        WantedSnoc(more, yielded, Item());
        yielded := yielded + [Item()];
      }
    }
  }

  /**
   newIterator(...).PageSize(requested).Collect() against a listing that may grow at the front
   before every call: all of the snapshot, once, in order, in floor(groups / limit) + 1 calls.
   */
  method CollectListing<T(!new), E(!new)>(feed: Feed<T, E>, requested: int, ghost at: nat -> seq<Group<T>>)
    returns (out: seq<T>, error: Option<WalkError<E>>, calls: seq<Call>)
    requires Serves(feed, SERVICE_CEILING, 0, at)
    ensures out == Flatten(at(0)) && error.None?
    ensures |calls| == |at(0)| / BoundedPageSize(requested) + 1
    ensures forall i :: 0 <= i < |calls| ==> calls[i].limit == BoundedPageSize(requested)
  {
    hide Walked, ServesOrBreaks, Flatten;
    ghost var fuel := FromTheStart(feed, at, BoundedPageSize(requested));
    var it := new Iterator(feed);
    it.PageSize(requested);
    out, error := it.Collect(fuel);
    calls := it.calls;
  }

  /** The same when calls may fail: a prefix of the snapshot, and the error of the call that failed. */
  method CollectListingOrError<T(!new), E(!new)>(feed: Feed<T, E>, requested: int, ghost at: nat -> seq<Group<T>>)
    returns (out: seq<T>, error: Option<WalkError<E>>, calls: seq<Call>)
    requires ServesOrBreaks(feed, SERVICE_CEILING, 0, at)
    ensures out <= Flatten(at(0))
    ensures error.None? ==> out == Flatten(at(0))
    ensures error.Some? ==>
              && calls != [] && error.value.FetchFailed?
              && var last := calls[|calls| - 1];
                 feed.fetch(|calls| - 1, last.cursor, last.limit) == Broken(error.value.error)
    ensures |calls| <= |at(0)| / BoundedPageSize(requested) + 1
  {
    hide Walked, ServesOrBreaks, Flatten;
    ghost var fuel := FromTheStartOrError(feed, at, BoundedPageSize(requested));
    var it := new Iterator(feed);
    it.PageSize(requested);
    out, error := it.Collect(fuel);
    calls := it.calls;
  }

  /**
   The same against a server without memory, of any other kind, unless its keys circle: the call
   returns, having asked in the listing's own order, with the pages it received and the error of
   its last call.
   */
  method CollectSteady<T, E>(feed: Feed<T, E>, requested: int, ghost cursors: set<Uuid>)
    returns (out: seq<T>, error: Option<WalkError<E>>, calls: seq<Call>)
    requires Steady(feed, BoundedPageSize(requested), cursors) && NIL in cursors
    requires !Circles(NextKey(feed, BoundedPageSize(requested)), NIL, None)
    ensures 1 <= |calls| <= |cursors|
    ensures var limit := BoundedPageSize(requested); var next := NextKey(feed, limit);
            && (forall i :: 0 <= i < |calls| ==>
                  calls[i].limit == limit && After(next, NIL, i) == Some(calls[i].cursor))
            && var last := calls[|calls| - 1].cursor;
               && (next(last).None? || next(last) == Some(last))
               && error == Report(Closing(feed.fetch(0, last, limit), next(last)))
    ensures out == Received(Judged(feed), 0, if error.Some? then calls[..|calls| - 1] else calls)
  {
    hide Walked, Plain, Steady, Circles, Received, After, Closing, Judged, NextKey;
    ghost var limit := BoundedPageSize(requested);
    WalkReturnsExactly(feed, limit, cursors, 0, NIL);
    SteadyWalk(feed, limit, cursors, 0, NIL);
    var it := new Iterator(feed);
    it.PageSize(requested);
    ghost var walk := Walked(feed, limit, 0, NIL, |cursors|);
    assert it.Future(|cursors|) == walk;
    out, error := it.Collect(|cursors|);
    calls := it.calls;
    assert calls == walk.calls;
  }
}
