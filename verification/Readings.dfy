/**
 Reading a listing call by call, whatever the listing: each call brings rows and says how to go
 on. What holds of every such reading is proved here once, for both iterators.
 */
module Readings {
  import opened Prelude
  import opened Listing
  import opened Orbits

  datatype Call = Call(cursor: Uuid, limit: nat)

  datatype WalkError<+E> = Stalled(cursor: Uuid) | FetchFailed(error: E)

  /** Why a reading is over; Cut means that it is not, only that we stopped looking. */
  datatype End<+E> = Finished | Failed(error: WalkError<E>) | Cut

  function Report<E>(end: End<E>): Option<WalkError<E>> {
    if end.Failed? then Some(end.error) else None
  }

  datatype Trip<+T, +E> = Trip(items: seq<T>, end: End<E>, calls: seq<Call>)

  datatype Turn<+E> = Onward(next: Uuid) | Over | Wrong(error: WalkError<E>)

  /** What one call comes to: the rows it brought and what follows. The rows of a call that goes wrong are withheld. */
  datatype Reading<+T, +E> = Reading(rows: seq<T>, turn: Turn<E>)

  /**
   Its arguments are the number of calls before this one, the cursor and the limit, so what a
   call comes to may depend on the whole history.
   */
  type Reader<!T, !E> = (nat, Uuid, nat) -> Reading<T, E>

  /** At most fuel calls, the first of them being call number n of the run. */
  ghost function Plain<T, E>(reader: Reader<T, E>, limit: nat, n: nat, cursor: Uuid, fuel: nat): Trip<T, E>
    decreases fuel
  {
    if fuel == 0 then Trip([], Cut, [])
    else
      var sent := [Call(cursor, limit)];
      var reading := reader(n, cursor, limit);
      match reading.turn
      case Wrong(error) => Trip([], Failed(error), sent)
      case Over => Trip(reading.rows, Finished, sent)
      case Onward(next) =>
        var rest := Plain(reader, limit, n + 1, next, fuel - 1);
        Trip(reading.rows + rest.items, rest.end, sent + rest.calls)
  }

  // Parts of a trip.

  /** now is what remains of was after some of its items were taken and some of its calls made. */
  ghost predicate Remains<T, E>(was: Trip<T, E>, now: Trip<T, E>, taken: seq<T>, sent: seq<Call>) {
    was == Trip(taken + now.items, now.end, sent + now.calls)
  }

  lemma RemainsTrans<T, E>(was: Trip<T, E>, mid: Trip<T, E>, now: Trip<T, E>,
                           taken: seq<T>, sent: seq<Call>, taken': seq<T>, sent': seq<Call>)
    requires Remains(was, mid, taken, sent) && Remains(mid, now, taken', sent')
    ensures Remains(was, now, taken + taken', sent + sent')
    ensures |taken + taken'| <= |was.items|
  {
    assert taken + (taken' + now.items) == taken + taken' + now.items;
    assert sent + (sent' + now.calls) == sent + sent' + now.calls;
  }

  lemma SameEnd<T, E>(was: Trip<T, E>, now: Trip<T, E>, taken: seq<T>, sent: seq<Call>)
    requires Remains(was, now, taken, sent)
    ensures was.end == now.end
  {
  }

  lemma Untouched<T, E>(was: Trip<T, E>)
    ensures Remains(was, was, [], [])
  {
  }

  lemma NothingRemains<T, E>(was: Trip<T, E>, now: Trip<T, E>, taken: seq<T>, sent: seq<Call>)
    requires Remains(was, now, taken, sent) && now.items == [] && now.calls == []
    ensures was == Trip(taken, now.end, sent)
  {
    assert taken + [] == taken && sent + [] == sent;
  }

  /** The consumer asked for more after each of the rows it was given. */
  ghost predicate Wanted<T>(more: seq<T> -> bool, rows: seq<T>) {
    forall i :: 0 < i <= |rows| ==> more(rows[..i])
  }

  lemma WantedSnoc<T>(more: seq<T> -> bool, rows: seq<T>, row: T)
    requires Wanted(more, rows) && more(rows + [row])
    ensures Wanted(more, rows + [row])
  {
    forall i | 0 < i <= |rows| + 1
      ensures more((rows + [row])[..i])
    {
      if i <= |rows| {
        assert (rows + [row])[..i] == rows[..i];
      } else {
        assert (rows + [row])[..i] == rows + [row];
      }
    }
  }

  /**
   What a consumer that may stop early was given of a walk: a prefix of its rows, for a prefix of
   its calls, up to the first row after which it wanted no more; or everything, and the error.
   */
  ghost predicate Consumed<T, E>(more: seq<T> -> bool, was: Trip<T, E>, yielded: seq<T>, error: Option<WalkError<E>>,
                                 sent: seq<Call>, stopped: bool) {
    && yielded <= was.items && sent <= was.calls
    && if stopped
       then yielded != [] && Wanted(more, yielded[..|yielded| - 1]) && !more(yielded) && error.None?
       else Wanted(more, yielded) && yielded == was.items && sent == was.calls && error == Report(was.end)
  }

  lemma NothingWantedYet<T>(more: seq<T> -> bool)
    ensures Wanted(more, [])
  {
  }

  /** As long as everything given was wanted, there is something ahead, or the walk is over. */
  lemma NotCutYet<T, E>(more: seq<T> -> bool, was: Trip<T, E>, now: Trip<T, E>, had: seq<T>, sent: seq<Call>)
    requires Remains(was, now, had, sent) && Wanted(more, had)
    requires was.end.Cut? ==> !Wanted(more, was.items)
    ensures now != Trip([], Cut, [])
  {
    assert had + [] == had;
  }

  lemma AllGiven<T, E>(more: seq<T> -> bool, was: Trip<T, E>, now: Trip<T, E>, had: seq<T>, sent: seq<Call>)
    requires Remains(was, now, had, sent) && Wanted(more, had) && now.items == [] && now.calls == []
    ensures Consumed(more, was, had, Report(now.end), sent, false)
  {
    assert had + [] == had && sent + [] == sent;
  }

  lemma StoppedHere<T, E>(more: seq<T> -> bool, was: Trip<T, E>, now: Trip<T, E>, had: seq<T>, row: T, sent: seq<Call>)
    requires Remains(was, now, had + [row], sent) && Wanted(more, had) && !more(had + [row])
    ensures Consumed(more, was, had + [row], None, sent, true)
  {
    assert (had + [row])[..|had|] == had;
  }

  lemma Uncons<T>(rows: seq<T>, rest: seq<T>)
    requires rows != []
    ensures [rows[0]] + rows[1..] == rows
    ensures [rows[0]] + (rows[1..] + rest) == rows + rest
  {
  }

  // Every reading, of any server.

  /** The rows brought by the calls of a trip, one after the other. */
  ghost function Received<T, E>(reader: Reader<T, E>, n: nat, calls: seq<Call>): seq<T>
    decreases |calls|
  {
    if calls == [] then []
    else reader(n, calls[0].cursor, calls[0].limit).rows + Received(reader, n + 1, calls[1..])
  }

  /**
   The calls: all with the same limit, the first with the given cursor, each of the others with
   the one that the call before it led to.
   */
  lemma {:induction false} CallsFollow<T, E>(reader: Reader<T, E>, limit: nat, n: nat, cursor: Uuid, fuel: nat)
    ensures var calls := Plain(reader, limit, n, cursor, fuel).calls;
            && |calls| <= fuel && (fuel > 0 ==> calls != [] && calls[0].cursor == cursor)
            && (forall i :: 0 <= i < |calls| ==> calls[i].limit == limit)
            && (forall i :: 0 < i < |calls| ==>
                  reader(n + i - 1, calls[i - 1].cursor, limit).turn == Onward(calls[i].cursor))
    decreases fuel
  {
    if fuel > 0 && reader(n, cursor, limit).turn.Onward? {
      var next := reader(n, cursor, limit).turn.next;
      CallsFollow(reader, limit, n + 1, next, fuel - 1);
      var calls := Plain(reader, limit, n, cursor, fuel).calls;
      var rest := Plain(reader, limit, n + 1, next, fuel - 1).calls;
      assert calls == [Call(cursor, limit)] + rest;
      hide Plain;
      forall i | 0 < i < |calls|
        ensures reader(n + i - 1, calls[i - 1].cursor, limit).turn == Onward(calls[i].cursor)
      {
        if i > 1 {
          assert reader(n + 1 + (i - 1) - 1, rest[i - 2].cursor, limit).turn == Onward(rest[i - 1].cursor);
        }
      }
    }
  }

  /** The last call says how the reading ends; a reading that is not over has used all its calls. */
  lemma {:induction false} LastCallDecides<T, E>(reader: Reader<T, E>, limit: nat, n: nat, cursor: Uuid, fuel: nat)
    ensures var t := Plain(reader, limit, n, cursor, fuel); var last := |t.calls| - 1;
            if t.end.Cut? then last == fuel - 1
            else
              && last >= 0 && t.calls[last].limit == limit
              && reader(n + last, t.calls[last].cursor, limit).turn
                 == if t.end.Failed? then Wrong(t.end.error) else Over
    decreases fuel
  {
    if fuel > 0 && reader(n, cursor, limit).turn.Onward? {
      LastCallDecides(reader, limit, n + 1, reader(n, cursor, limit).turn.next, fuel - 1);
    }
  }

  /** The calls whose rows come out: all of them, or all but the one that went wrong. */
  ghost function Given<T, E>(t: Trip<T, E>): seq<Call> {
    if t.end.Failed? && t.calls != [] then t.calls[..|t.calls| - 1] else t.calls
  }

  /**
   What comes out is what was received, in order and complete, except that the page which fails
   the reading is withheld.
   */
  lemma {:induction false} ItemsAreReceived<T, E>(reader: Reader<T, E>, limit: nat, n: nat, cursor: Uuid, fuel: nat)
    ensures var t := Plain(reader, limit, n, cursor, fuel);
            t.items == Received(reader, n, Given(t))
    decreases fuel
  {
    if fuel > 0 && reader(n, cursor, limit).turn.Onward? {
      var next := reader(n, cursor, limit).turn.next;
      ItemsAreReceived(reader, limit, n + 1, next, fuel - 1);
      LastCallDecides(reader, limit, n + 1, next, fuel - 1);
      var t, rest := Plain(reader, limit, n, cursor, fuel), Plain(reader, limit, n + 1, next, fuel - 1);
      assert Given(t) == [Call(cursor, limit)] + Given(rest);
    }
  }

  /** Looking further does not change a reading that is over. */
  lemma {:induction false} MoreFuel<T, E>(reader: Reader<T, E>, limit: nat, n: nat, cursor: Uuid, fuel: nat, more: nat)
    requires fuel <= more && !Plain(reader, limit, n, cursor, fuel).end.Cut?
    ensures Plain(reader, limit, n, cursor, more) == Plain(reader, limit, n, cursor, fuel)
    decreases fuel
  {
    if reader(n, cursor, limit).turn.Onward? {
      MoreFuel(reader, limit, n + 1, reader(n, cursor, limit).turn.next, fuel - 1, more - 1);
    }
  }

  // When a reading returns.

  ghost predicate Returns<T, E>(reader: Reader<T, E>, limit: nat, n: nat, cursor: Uuid) {
    exists fuel: nat :: !Plain(reader, limit, n, cursor, fuel).end.Cut?
  }

  ghost predicate SendsOneTwice(calls: seq<Call>) {
    exists i, j :: 0 <= i < j < |calls| && calls[i].cursor == calls[j].cursor
  }

  /** Against any server at all: only by sending some cursor a second time can a reading go on for ever. */
  lemma OnlyRepetitionGoesOn<T, E>(reader: Reader<T, E>, limit: nat, n: nat, cursor: Uuid)
    ensures Returns(reader, limit, n, cursor)
            || exists fuel: nat :: SendsOneTwice(Plain(reader, limit, n, cursor, fuel).calls)
  {
    var all := AllUuids();
    var t := Plain(reader, limit, n, cursor, |all| + 1);
    LastCallDecides(reader, limit, n, cursor, |all| + 1);
    if t.end.Cut? {
      var i, j := Pigeonhole(seq(|t.calls|, k requires 0 <= k < |t.calls| => t.calls[k].cursor), all);
      assert SendsOneTwice(t.calls);
    }
  }

  /** The cursor that a call leads to. */
  ghost function NextOf<T, E>(reader: Reader<T, E>, limit: nat): Uuid -> Option<Uuid> {
    (c: Uuid) => var turn := reader(0, c, limit).turn; if turn.Onward? then Some(turn.next) else None
  }

  /** A server that has no memory: what a call under one of these cursors comes to is always the same. */
  ghost predicate Memoryless<T, E>(reader: Reader<T, E>, limit: nat, cursors: set<Uuid>) {
    && (forall n: nat, c: Uuid :: c in cursors ==> reader(n, c, limit) == reader(0, c, limit))
    && Closed(NextOf(reader, limit), cursors)
  }

  /** Without memory, the cursors sent are those on the way from the first one, as far as it goes. */
  lemma {:induction false} CallsAreTheWay<T, E>(reader: Reader<T, E>, limit: nat, cursors: set<Uuid>,
                                                n: nat, cursor: Uuid, fuel: nat)
    requires Memoryless(reader, limit, cursors) && cursor in cursors
    ensures var t := Plain(reader, limit, n, cursor, fuel); var next := NextOf(reader, limit);
            && (t.end.Cut? <==> After(next, cursor, fuel).Some?)
            && (forall i :: 0 <= i < |t.calls| ==> After(next, cursor, i) == Some(t.calls[i].cursor))
            && (!t.end.Cut? ==> After(next, cursor, |t.calls|).None?)
    decreases fuel
  {
    var next := NextOf(reader, limit);
    assert After(next, cursor, 0) == Some(cursor);
    assert After(next, cursor, 1) == next(cursor);
    if fuel > 0 {
      assert reader(n, cursor, limit) == reader(0, cursor, limit);
      var t := Plain(reader, limit, n, cursor, fuel);
      if next(cursor).Some? {
        var c := next(cursor).value;
        CallsAreTheWay(reader, limit, cursors, n + 1, c, fuel - 1);
        AfterSum(next, cursor, 1, fuel - 1);
        forall i | 0 < i <= |t.calls|
          ensures After(next, cursor, i) == After(next, c, i - 1)
        {
          AfterSum(next, cursor, 1, i - 1);
        }
      } else if After(next, cursor, fuel).Some? {
        SomeBefore(next, cursor, 1, fuel);
      }
    }
  }

  /**
   Without memory, a reading returns exactly when no cursor is met again on the way from its
   first one; then within as many calls as there are cursors.
   */
  lemma ReturnsExactly<T, E>(reader: Reader<T, E>, limit: nat, cursors: set<Uuid>, n: nat, cursor: Uuid)
    requires Memoryless(reader, limit, cursors) && cursor in cursors
    ensures Returns(reader, limit, n, cursor) <==> !Recurs(NextOf(reader, limit), cursor)
    ensures Returns(reader, limit, n, cursor) ==> !Plain(reader, limit, n, cursor, |cursors|).end.Cut?
  {
    var next := NextOf(reader, limit);
    EndsExactly(next, cursors, cursor);
    forall fuel: nat
      ensures Plain(reader, limit, n, cursor, fuel).end.Cut? <==> After(next, cursor, fuel).Some?
    {
      CallsAreTheWay(reader, limit, cursors, n, cursor, fuel);
    }
    assert Returns(reader, limit, n, cursor) <==> Ends(next, cursor);
  }
}
