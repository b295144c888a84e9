/**
 The plain page-by-page reading of a listing that carries no next-page marker: what the
 buffered iterator is proved to compute. It knows nothing of buffers, positions or flags.
 */
module Walk {
  import opened Prelude
  import opened Listing
  import opened Orbits
  import opened Readings

  datatype Answer<+T, +E> = Rows(rows: seq<T>) | Broken(error: E)

  /**
   The listing call and the row's cursor key. The call's first argument says how many calls
   went before it, so the answers may depend on the whole history: any server, hostile or
   changing, is some such function.
   */
  datatype Feed<!T, !E> = Feed(fetch: (nat, Uuid, nat) -> Answer<T, E>, key: T -> Uuid)

  function LastKey<T>(key: T -> Uuid, rows: seq<T>): Uuid
    requires rows != []
  {
    key(rows[|rows| - 1])
  }

  /** The page shows as many distinct keys as were asked for, so more may follow. */
  ghost predicate IsFull<T>(key: T -> Uuid, rows: seq<T>, limit: nat) {
    rows != [] && |KeysOf(key, rows)| >= limit
  }

  ghost function Judged<T, E>(feed: Feed<T, E>): Reader<T, E> {
    (n: nat, cursor: Uuid, limit: nat) =>
      match feed.fetch(n, cursor, limit)
      case Broken(error) => Reading([], Wrong(FetchFailed(error)))
      case Rows(rows) =>
        Reading(rows,
                if !IsFull(feed.key, rows, limit) then Over
                else if LastKey(feed.key, rows) == cursor then Wrong(Stalled(cursor))
                else Onward(LastKey(feed.key, rows)))
  }

  ghost function Walked<T, E>(feed: Feed<T, E>, limit: nat, n: nat, cursor: Uuid, fuel: nat): Trip<T, E> {
    Plain(Judged(feed), limit, n, cursor, fuel)
  }

  lemma NoFuel<T, E>(feed: Feed<T, E>, limit: nat, n: nat, cursor: Uuid)
    ensures Walked(feed, limit, n, cursor, 0) == Trip([], Cut, [])
  {
  }

  /** The walk, one call unrolled, by the kind of answer. */
  lemma OneCall<T, E>(feed: Feed<T, E>, limit: nat, n: nat, cursor: Uuid, fuel: nat)
    requires fuel > 0
    ensures var answer := feed.fetch(n, cursor, limit);
            var t := Walked(feed, limit, n, cursor, fuel); var sent := [Call(cursor, limit)];
            if answer.Broken? then t == Trip([], Failed(FetchFailed(answer.error)), sent)
            else if |KeysOf(feed.key, answer.rows)| < limit || answer.rows == [] then
              t == Trip(answer.rows, Finished, sent)
            else if LastKey(feed.key, answer.rows) == cursor then t == Trip([], Failed(Stalled(cursor)), sent)
            else
              Remains(t, Walked(feed, limit, n + 1, LastKey(feed.key, answer.rows), fuel - 1), answer.rows, sent)
  {
  }

  /**
   Against any server at all: the limit never changes, no call repeats the cursor of the call
   before it, and what comes out is the pages received, in order and complete, except that the
   page which fails the walk is withheld whole.
   */
  lemma AnyServer<T, E>(feed: Feed<T, E>, limit: nat, n: nat, cursor: Uuid, fuel: nat)
    ensures var t := Walked(feed, limit, n, cursor, fuel);
            && (forall i :: 0 <= i < |t.calls| ==> t.calls[i].limit == limit)
            && (forall i :: 0 < i < |t.calls| ==> t.calls[i].cursor != t.calls[i - 1].cursor)
            && (t.end.Failed? ==> t.calls != [])
            && t.items == Received(Judged(feed), n, if t.end.Failed? then t.calls[..|t.calls| - 1] else t.calls)
  {
    hide Plain, Received;
    CallsFollow(Judged(feed), limit, n, cursor, fuel);
    LastCallDecides(Judged(feed), limit, n, cursor, fuel);
    ItemsAreReceived(Judged(feed), limit, n, cursor, fuel);
    var calls := Walked(feed, limit, n, cursor, fuel).calls;
    forall i | 0 < i < |calls|
      ensures calls[i].cursor != calls[i - 1].cursor
    {
      assert Judged(feed)(n + i - 1, calls[i - 1].cursor, limit).turn == Onward(calls[i].cursor);
    }
  }

  // Which walks return.

  /** The listing's own order: the last key of a full page, whatever it is. */
  ghost function NextKey<T, E>(feed: Feed<T, E>, limit: nat): Uuid -> Option<Uuid> {
    (c: Uuid) =>
      match feed.fetch(0, c, limit)
      case Broken(_) => None
      case Rows(rows) => if IsFull(feed.key, rows, limit) then Some(LastKey(feed.key, rows)) else None
  }

  /** The answers under these cursors do not depend on the calls before, and lead to none but these cursors. */
  ghost predicate Steady<T, E>(feed: Feed<T, E>, limit: nat, cursors: set<Uuid>) {
    && (forall n: nat, c: Uuid :: c in cursors ==> feed.fetch(n, c, limit) == feed.fetch(0, c, limit))
    && Closed(NextKey(feed, limit), cursors)
  }

  lemma SteadyIsMemoryless<T, E>(feed: Feed<T, E>, limit: nat, cursors: set<Uuid>)
    requires Steady(feed, limit, cursors)
    ensures Memoryless(Judged(feed), limit, cursors)
    ensures IsGuarded(NextKey(feed, limit), NextOf(Judged(feed), limit), None)
  {
    var reader, next := Judged(feed), NextOf(Judged(feed), limit);
    forall x | x in cursors && next(x).Some?
      ensures next(x).value in cursors
    {
      assert NextKey(feed, limit)(x) == next(x);
    }
  }

  /**
   Which walks return, on a server without memory: exactly those on which the listing's keys do
   not go round a circle of two or more. A key that leads to itself is what the stall guard
   stops at, and it stops at nothing else. A walk that returns does so within as many calls as
   there are cursors.
   */
  lemma WalkReturnsExactly<T, E>(feed: Feed<T, E>, limit: nat, cursors: set<Uuid>, n: nat, cursor: Uuid)
    requires Steady(feed, limit, cursors) && cursor in cursors
    ensures (exists fuel: nat :: !Walked(feed, limit, n, cursor, fuel).end.Cut?)
            <==> !Circles(NextKey(feed, limit), cursor, None)
    ensures !Circles(NextKey(feed, limit), cursor, None) ==>
              !Walked(feed, limit, n, cursor, |cursors|).end.Cut?
  {
    SteadyIsMemoryless(feed, limit, cursors);
    ReturnsExactly(Judged(feed), limit, cursors, n, cursor);
    GuardMisses(NextKey(feed, limit), NextOf(Judged(feed), limit), None, cursor);
    if Returns(Judged(feed), limit, n, cursor) {
      assert !Walked(feed, limit, n, cursor, |cursors|).end.Cut?;
    }
  }

  /** How an answer ends a walk whose listing leads onward from this cursor, or nowhere. */
  function Closing<T, E>(answer: Answer<T, E>, onward: Option<Uuid>): End<E> {
    match answer
    case Broken(error) => Failed(FetchFailed(error))
    case Rows(_) => if onward.Some? then Failed(Stalled(onward.value)) else Finished
  }

  /**
   What such a walk comes to: it asks along the listing's own order, to the end of it or to a
   key that leads to itself.
   */
  lemma SteadyWalk<T, E>(feed: Feed<T, E>, limit: nat, cursors: set<Uuid>, n: nat, cursor: Uuid)
    requires Steady(feed, limit, cursors) && cursor in cursors && !Circles(NextKey(feed, limit), cursor, None)
    ensures var t := Walked(feed, limit, n, cursor, |cursors|); var next := NextKey(feed, limit);
            && 1 <= |t.calls| <= |cursors|
            && (forall i :: 0 <= i < |t.calls| ==>
                  t.calls[i].limit == limit && After(next, cursor, i) == Some(t.calls[i].cursor))
            && (var last := t.calls[|t.calls| - 1].cursor;
                && (next(last).None? || next(last) == Some(last))
                && t.end == Closing(feed.fetch(0, last, limit), next(last)))
            && t.items == Received(Judged(feed), n, if t.end.Failed? then t.calls[..|t.calls| - 1] else t.calls)
  {
    hide Plain, Received;
    var reader, fuel := Judged(feed), |cursors|;
    WalkReturnsExactly(feed, limit, cursors, n, cursor);
    SteadyIsMemoryless(feed, limit, cursors);
    CallsFollow(reader, limit, n, cursor, fuel);
    LastCallDecides(reader, limit, n, cursor, fuel);
    CallsAreTheWay(reader, limit, cursors, n, cursor, fuel);
    ItemsAreReceived(reader, limit, n, cursor, fuel);
    var calls := Plain(reader, limit, n, cursor, fuel).calls;
    forall i | 0 <= i < |calls|
      ensures After(NextKey(feed, limit), cursor, i) == Some(calls[i].cursor) && calls[i].cursor in cursors
    {
      GuardedSoFar(NextKey(feed, limit), NextOf(reader, limit), None, cursor, i);
      StaysIn(NextOf(reader, limit), cursors, cursor, i);
    }
  }

  /** The same with no word about cursors: there are finitely many in any case. */
  lemma SteadyWalkReturns<T, E>(feed: Feed<T, E>, limit: nat, n: nat, cursor: Uuid)
    requires forall m: nat, c: Uuid :: feed.fetch(m, c, limit) == feed.fetch(0, c, limit)
    ensures (exists fuel: nat :: !Walked(feed, limit, n, cursor, fuel).end.Cut?)
            <==> !Circles(NextKey(feed, limit), cursor, None)
  {
    var all := AllUuids();
    WalkReturnsExactly(feed, limit, all, n, cursor);
  }

  /** A server that answers with one full page after the other, under two keys in turn. */
  function Alternating(): Feed<Uuid, ()> {
    Feed((n, cursor, limit) => Rows([if cursor == 1 then 2 else 1]), (row: Uuid) => row)
  }

  lemma {:induction false} OneRowEach<T, E>(feed: Feed<T, E>, n: nat, calls: seq<Call>)
    requires forall m: nat, c: Uuid, l: nat :: feed.fetch(m, c, l).Rows? && |feed.fetch(m, c, l).rows| == 1
    ensures |Received(Judged(feed), n, calls)| == |calls|
    decreases |calls|
  {
    if calls != [] {
      OneRowEach(feed, n + 1, calls[1..]);
    }
  }

  /** Its keys circle, so the stall guard, which looks one cursor back, never stops it. */
  lemma SomeWalksNeverEnd(n: nat, cursor: Uuid, fuel: nat)
    ensures Circles(NextKey(Alternating(), 1), cursor, None)
    ensures var t := Walked(Alternating(), 1, n, cursor, fuel);
            t.end.Cut? && |t.calls| == fuel && |t.items| == fuel
  {
    var feed := Alternating();
    var next := NextKey(feed, 1);
    forall c: Uuid
      ensures next(c) == Some(if c == 1 then 2 else 1)
    {
      var rows := feed.fetch(0, c, 1).rows;
      assert feed.key(rows[0]) in KeysOf(feed.key, rows);
    }
    assert After(next, cursor, 1) == next(cursor);
    assert Meets(next, cursor, 1, 3) && Slips(next, cursor, 1, None);
    SteadyWalkReturns(feed, 1, n, cursor);
    assert Walked(feed, 1, n, cursor, fuel).end.Cut?;
    LastCallDecides(Judged(feed), 1, n, cursor, fuel);
    ItemsAreReceived(Judged(feed), 1, n, cursor, fuel);
    OneRowEach(feed, n, Walked(feed, 1, n, cursor, fuel).calls);
  }

  /**
   From call `from` on, every answer is either an error or the page of the listing as it is at that call,
   and the listing only ever grows at the front.
   */
  ghost predicate ServesOrBreaks<T(!new), E(!new)>(feed: Feed<T, E>, ceiling: nat, from: nat,
                                                   at: nat -> seq<Group<T>>) {
    && (forall n: nat :: from <= n ==> WellFormed(feed.key, at(n)) && GrownFrom(at(n), at(from)))
    && (forall n: nat, c: Uuid, l: nat :: from <= n ==>
          feed.fetch(n, c, l).Broken? || feed.fetch(n, c, l) == Rows(Page(at(n), c, l, ceiling)))
  }

  /** The same, with every call answered. */
  ghost predicate Serves<T(!new), E(!new)>(feed: Feed<T, E>, ceiling: nat, from: nat, at: nat -> seq<Group<T>>) {
    && ServesOrBreaks(feed, ceiling, from, at)
    && (forall n: nat, c: Uuid, l: nat :: from <= n ==> !feed.fetch(n, c, l).Broken?)
  }

  /** Such servers exist: for every listing that only grows, this one. */
  function ServerOf<T, E>(key: T -> Uuid, ceiling: nat, at: nat -> seq<Group<T>>): Feed<T, E> {
    Feed((n, cursor, limit) => Rows(Page(at(n), cursor, limit, ceiling)), key)
  }

  lemma ServerOfServes<T(!new), E(!new)>(key: T -> Uuid, ceiling: nat, at: nat -> seq<Group<T>>)
    requires forall n: nat :: WellFormed(key, at(n)) && GrownFrom(at(n), at(0))
    ensures Serves<T, E>(ServerOf(key, ceiling, at), ceiling, 0, at)
  {
    hide WellFormed, GrownFrom, Page;
  }

  /** Where a walk stands after the first k groups of the snapshot: at the start, or at the k-th group's key. */
  ghost predicate Stands<T>(groups: seq<Group<T>>, k: nat, from: nat, n: nat, cursor: Uuid) {
    && from <= n && k <= |groups|
    && (if k == 0 then cursor == NIL && n == from else cursor == groups[k - 1].id)
  }

  lemma AtCall<T(!new), E(!new)>(feed: Feed<T, E>, ceiling: nat, from: nat, at: nat -> seq<Group<T>>,
                                 n: nat, cursor: Uuid, limit: nat)
    requires ServesOrBreaks(feed, ceiling, from, at) && from <= n
    ensures WellFormed(feed.key, at(n)) && WellFormed(feed.key, at(from)) && GrownFrom(at(n), at(from))
    ensures feed.fetch(n, cursor, limit).Broken?
            || feed.fetch(n, cursor, limit) == Rows(Page(at(n), cursor, limit, ceiling))
  {
    hide WellFormed, GrownFrom, Page;
  }

  /** One answered call, seen from the snapshot. */
  lemma OnePage<T(!new), E(!new)>(feed: Feed<T, E>, ceiling: nat, from: nat, at: nat -> seq<Group<T>>,
                                  k: nat, limit: nat, n: nat, cursor: Uuid)
    requires 1 <= limit <= ceiling && ServesOrBreaks(feed, ceiling, from, at)
    requires Stands(at(from), k, from, n, cursor)
    requires feed.fetch(n, cursor, limit).Rows?
    ensures var groups := at(from); var hi := Min(k + limit, |groups|);
            var rows := Flatten(groups[k..hi]);
            && feed.fetch(n, cursor, limit) == Rows(rows)
            && |KeysOf(feed.key, rows)| == hi - k
            && (hi - k == limit ==> rows != [] && LastKey(feed.key, rows) == groups[hi - 1].id
                                    && groups[hi - 1].id != cursor)
            && Flatten(groups[k..]) == rows + Flatten(groups[hi..])
  {
    hide ServesOrBreaks, WellFormed, GrownFrom, Page, KeysOf, Flatten;
    var groups := at(from);
    AtCall(feed, ceiling, from, at, n, cursor, limit);
    PageOfGrown(feed.key, at(n), groups, k, cursor, limit, ceiling);
    PageShows(feed.key, groups, k, Min(k + limit, |groups|));
  }

  /**
   Completeness and snapshot. The listing may grow at the front before every call; the walk
   still returns the rows after the k-th group as they were at the first call, all of them,
   in order, once each, in (groups left) / limit + 1 calls.
   */
  lemma {:induction false} WalkIsListing<T(!new), E(!new)>(
    feed: Feed<T, E>, ceiling: nat, from: nat, at: nat -> seq<Group<T>>,
    k: nat, limit: nat, n: nat, cursor: Uuid, fuel: nat)
    requires 1 <= limit <= ceiling && Serves(feed, ceiling, from, at)
    requires Stands(at(from), k, from, n, cursor)
    requires fuel >= PagesNeeded(|at(from)| - k, limit)
    ensures var t := Walked(feed, limit, n, cursor, fuel);
            && t.items == Flatten(at(from)[k..]) && t.end == Finished
            && |t.calls| == PagesNeeded(|at(from)| - k, limit)
    decreases fuel
  {
    hide ServesOrBreaks, KeysOf, Walked, Flatten;
    OneCall(feed, limit, n, cursor, fuel);
    OnePage(feed, ceiling, from, at, k, limit, n, cursor);
    var groups := at(from);
    if k + limit <= |groups| {
      WalkIsListing(feed, ceiling, from, at, k + limit, limit, n + 1, groups[k + limit - 1].id, fuel - 1);
    } else {
      assert groups[|groups|..] == [];
      FlattenNothing<T>();
    }
  }

  /** Against any server, a walk that a call's error ends reports the error of its own last call. */
  lemma ErrorIsTheLastAnswer<T, E>(feed: Feed<T, E>, limit: nat, n: nat, cursor: Uuid, fuel: nat)
    requires var end := Walked(feed, limit, n, cursor, fuel).end; end.Failed? && end.error.FetchFailed?
    ensures var t := Walked(feed, limit, n, cursor, fuel);
            && t.calls != []
            && var last := t.calls[|t.calls| - 1];
               feed.fetch(n + |t.calls| - 1, last.cursor, last.limit) == Broken(t.end.error.error)
  {
    LastCallDecides(Judged(feed), limit, n, cursor, fuel);
  }

  /**
   When some calls fail for good, the walk returns a prefix of the snapshot and a call's error;
   without a failure it returns all of it.
   */
  lemma {:induction false} WalkIsListingOrError<T(!new), E(!new)>(
    feed: Feed<T, E>, ceiling: nat, from: nat, at: nat -> seq<Group<T>>,
    k: nat, limit: nat, n: nat, cursor: Uuid, fuel: nat)
    requires 1 <= limit <= ceiling && ServesOrBreaks(feed, ceiling, from, at)
    requires Stands(at(from), k, from, n, cursor)
    requires fuel >= PagesNeeded(|at(from)| - k, limit)
    ensures var t := Walked(feed, limit, n, cursor, fuel); var all := Flatten(at(from)[k..]);
            && t.items <= all
            && |t.calls| <= PagesNeeded(|at(from)| - k, limit)
            && (t.end.Finished? ==> t.items == all)
            && (t.end.Finished? || (t.end.Failed? && t.end.error.FetchFailed?))
    decreases fuel
  {
    hide ServesOrBreaks, KeysOf, Walked, Flatten;
    OneCall(feed, limit, n, cursor, fuel);
    var groups := at(from);
    if feed.fetch(n, cursor, limit).Rows? {
      OnePage(feed, ceiling, from, at, k, limit, n, cursor);
      if k + limit <= |groups| {
        var next := groups[k + limit - 1].id;
        WalkIsListingOrError(feed, ceiling, from, at, k + limit, limit, n + 1, next, fuel - 1);
      } else {
        assert groups[|groups|..] == [];
        FlattenNothing<T>();
      }
    }
  }

  /** The whole walk over a growing listing, from its first call. */
  lemma FromTheStart<T(!new), E(!new)>(feed: Feed<T, E>, at: nat -> seq<Group<T>>, limit: nat) returns (fuel: nat)
    requires 1 <= limit <= SERVICE_CEILING && Serves(feed, SERVICE_CEILING, 0, at)
    ensures var t := Walked(feed, limit, 0, NIL, fuel);
            && t.items == Flatten(at(0)) && t.end == Finished
            && |t.calls| == |at(0)| / limit + 1
            && forall i :: 0 <= i < |t.calls| ==> t.calls[i].limit == limit
  {
    hide ServesOrBreaks;
    fuel := PagesNeeded(|at(0)|, limit);
    WalkIsListing(feed, SERVICE_CEILING, 0, at, 0, limit, 0, NIL, fuel);
    PagesNeededClosed(|at(0)|, limit);
    AnyServer(feed, limit, 0, NIL, fuel);
    assert at(0)[0..] == at(0);
  }

  /** The same when calls may fail. */
  lemma FromTheStartOrError<T(!new), E(!new)>(feed: Feed<T, E>, at: nat -> seq<Group<T>>, limit: nat)
    returns (fuel: nat)
    requires 1 <= limit <= SERVICE_CEILING && ServesOrBreaks(feed, SERVICE_CEILING, 0, at)
    ensures var t := Walked(feed, limit, 0, NIL, fuel);
            && t.items <= Flatten(at(0))
            && |t.calls| <= |at(0)| / limit + 1
            && (if t.end.Finished? then t.items == Flatten(at(0)) else
                && t.end.Failed? && t.end.error.FetchFailed? && t.calls != []
                && var last := t.calls[|t.calls| - 1];
                   feed.fetch(|t.calls| - 1, last.cursor, last.limit) == Broken(t.end.error.error))
  {
    hide ServesOrBreaks;
    fuel := PagesNeeded(|at(0)|, limit);
    WalkIsListingOrError(feed, SERVICE_CEILING, 0, at, 0, limit, 0, NIL, fuel);
    PagesNeededClosed(|at(0)|, limit);
    assert at(0)[0..] == at(0);
    if Walked(feed, limit, 0, NIL, fuel).end.Failed? {
      ErrorIsTheLastAnswer(feed, limit, 0, NIL, fuel);
    }
  }

  lemma FlattenLonger<T(!new)>(key: T -> Uuid, groups: seq<Group<T>>, hi: nat)
    requires WellFormed(key, groups) && hi < |groups|
    ensures |Flatten(groups[..hi])| < |Flatten(groups)|
  {
    WellFormedSlice(key, groups, hi, |groups|);
    GroupsOnAPage(key, groups[hi..]);
    FlattenConcat(groups[..hi], groups[hi..]);
    assert groups == groups[..hi] + groups[hi..];
  }

  /** With a limit above the ceiling the first page is never full, so the walk takes it for the end. */
  lemma CappedPage<T(!new), E(!new)>(feed: Feed<T, E>, ceiling: nat, groups: seq<Group<T>>, limit: nat)
    requires 1 <= ceiling < limit && Serves(feed, ceiling, 0, (n: nat) => groups)
    ensures var rows := Flatten(groups[..Min(ceiling, |groups|)]);
            && feed.fetch(0, NIL, limit) == Rows(rows)
            && |KeysOf(feed.key, rows)| < limit
            && (rows == Flatten(groups) <==> |groups| <= ceiling)
  {
    var hi := Min(ceiling, |groups|);
    assert WellFormed(feed.key, ((n: nat) => groups)(0));
    assert feed.fetch(0, NIL, limit) == Rows(Page(groups, NIL, limit, ceiling));
    PageShows(feed.key, groups, 0, hi);
    assert groups[0..hi] == groups[..hi];
    if |groups| <= ceiling {
      assert groups[..hi] == groups;
    } else {
      FlattenLonger(feed.key, groups, hi);
    }
  }

  /**
   Why the limit is capped before it is sent: on a fixed listing, a walk from the start is
   complete exactly when the limit does not exceed the server's ceiling, or one page holds
   the whole listing anyway.
   */
  lemma CompleteExactly<T(!new), E(!new)>(feed: Feed<T, E>, ceiling: nat, groups: seq<Group<T>>, limit: nat, fuel: nat)
    requires 1 <= limit && 1 <= ceiling && Serves(feed, ceiling, 0, (n: nat) => groups)
    requires fuel >= PagesNeeded(|groups|, limit)
    ensures var t := Walked(feed, limit, 0, NIL, fuel);
            (t.items == Flatten(groups) && t.end == Finished) <==> (limit <= ceiling || |groups| <= ceiling)
  {
    hide ServesOrBreaks;
    var at := (n: nat) => groups;
    if limit <= ceiling {
      WalkIsListing(feed, ceiling, 0, at, 0, limit, 0, NIL, fuel);
      assert groups[0..] == groups;
    } else {
      CappedPage(feed, ceiling, groups, limit);
    }
  }
}
