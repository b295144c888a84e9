/**
 What a cursor-paged listing is, on the server's side: groups of rows, each group under one
 key, served some groups at a time from just after the cursor.
 */
module Listing {
  import opened Prelude

  const UUIDS: nat := 0x1_0000_0000_0000_0000_0000_0000_0000_0000

  /** A 128-bit identifier; zero is the nil identifier, which stands for "no cursor". */
  type Uuid = u: nat | u < UUIDS
  const NIL: Uuid := 0

  /** No page of the service holds more groups than this. */
  const SERVICE_CEILING := 100

  datatype Group<+T> = Group(id: Uuid, rows: seq<T>)

  function Flatten<T>(groups: seq<Group<T>>): seq<T> {
    if groups == [] then [] else groups[0].rows + Flatten(groups[1..])
  }

  /** Every group has rows, all of them under its own key; keys are not nil and do not repeat. */
  ghost predicate WellFormed<T(!new)>(key: T -> Uuid, groups: seq<Group<T>>) {
    && (forall i :: 0 <= i < |groups| ==> groups[i].id != NIL && groups[i].rows != [])
    && (forall i, r :: 0 <= i < |groups| && r in groups[i].rows ==> key(r) == groups[i].id)
    && (forall i, j :: 0 <= i < j < |groups| ==> groups[i].id != groups[j].id)
  }

  /** How many groups lie up to and including the cursor. */
  function Skipped<T>(groups: seq<Group<T>>, cursor: Uuid): (k: nat)
    ensures k <= |groups|
  {
    if cursor == NIL then 0
    else if groups == [] then 0
    else if groups[0].id == cursor then 1
    else 1 + Skipped(groups[1..], cursor)
  }

  /** One page: the groups after the cursor, no more of them than asked for or than the ceiling. */
  function Page<T>(groups: seq<Group<T>>, cursor: Uuid, limit: nat, ceiling: nat): seq<T> {
    var k := Skipped(groups, cursor);
    Flatten(groups[k..Min(k + Min(limit, ceiling), |groups|)])
  }

  /** later is earlier with new groups in front of it ("newest first"). */
  ghost predicate GrownFrom<T>(later: seq<Group<T>>, earlier: seq<Group<T>>) {
    |earlier| <= |later| && later[|later| - |earlier|..] == earlier
  }

  lemma {:induction false} FlattenConcat<T>(a: seq<Group<T>>, b: seq<Group<T>>)
    ensures Flatten(a + b) == Flatten(a) + Flatten(b)
  {
    if a == [] {
      assert a + b == b;
    } else {
      assert (a + b)[1..] == a[1..] + b;
      FlattenConcat(a[1..], b);
    }
  }

  lemma FlattenNothing<T>()
    ensures Flatten<T>([]) == []
  {
  }

  lemma {:induction false} SkippedAt<T(!new)>(groups: seq<Group<T>>, i: nat)
    requires i < |groups| && groups[i].id != NIL
    requires forall j :: 0 <= j < i ==> groups[j].id != groups[i].id
    ensures Skipped(groups, groups[i].id) == i + 1
  {
    if i > 0 {
      assert groups[1..][i - 1] == groups[i];
      SkippedAt(groups[1..], i - 1);
    }
  }

  lemma {:induction false} UuidsBelow(n: nat) returns (s: set<Uuid>)
    requires n <= UUIDS
    ensures forall u: Uuid :: u < n ==> u in s
  {
    s := {};
    if n > 0 {
      var below := UuidsBelow(n - 1);
      s := below + {n - 1};
    }
  }

  /** There are finitely many of them. */
  lemma AllUuids() returns (all: set<Uuid>)
    ensures forall u: Uuid :: u in all
  {
    all := UuidsBelow(UUIDS);
  }

  /** The keys on a page. */
  ghost function KeysOf<T>(key: T -> Uuid, rows: seq<T>): set<Uuid> {
    set i | 0 <= i < |rows| :: key(rows[i])
  }

  lemma KeysOfConcat<T>(key: T -> Uuid, a: seq<T>, b: seq<T>)
    ensures KeysOf(key, a + b) == KeysOf(key, a) + KeysOf(key, b)
  {
    forall x | x in KeysOf(key, a) + KeysOf(key, b)
      ensures x in KeysOf(key, a + b)
    {
      if x in KeysOf(key, a) {
        var i :| 0 <= i < |a| && key(a[i]) == x;
        assert key((a + b)[i]) == x;
      } else {
        var i :| 0 <= i < |b| && key(b[i]) == x;
        assert key((a + b)[|a| + i]) == x;
      }
    }
  }

  ghost function Ids<T>(groups: seq<Group<T>>): set<Uuid> {
    set i | 0 <= i < |groups| :: groups[i].id
  }

  lemma WellFormedSlice<T(!new)>(key: T -> Uuid, groups: seq<Group<T>>, lo: nat, hi: nat)
    requires WellFormed(key, groups) && lo <= hi <= |groups|
    ensures WellFormed(key, groups[lo..hi])
  {
    assert forall i :: 0 <= i < hi - lo ==> groups[lo..hi][i] == groups[lo + i];
  }

  lemma IdsSplit<T>(groups: seq<Group<T>>)
    requires groups != []
    ensures Ids(groups) == {groups[0].id} + Ids(groups[1..])
  {
    forall x | x in Ids(groups[1..])
      ensures x in Ids(groups)
    {
      var i :| 0 <= i < |groups[1..]| && groups[1..][i].id == x;
      assert groups[i + 1].id == x;
    }
    assert groups[0].id in Ids(groups);
  }

  lemma {:induction false} DistinctIds<T(!new)>(key: T -> Uuid, groups: seq<Group<T>>)
    requires WellFormed(key, groups)
    ensures |Ids(groups)| == |groups|
  {
    if groups != [] {
      WellFormedSlice(key, groups, 1, |groups|);
      assert groups[1..] == groups[1..|groups|];
      DistinctIds(key, groups[1..]);
      IdsSplit(groups);
    }
  }

  lemma {:induction false} KeysAreIds<T(!new)>(key: T -> Uuid, groups: seq<Group<T>>)
    requires WellFormed(key, groups)
    ensures KeysOf(key, Flatten(groups)) == Ids(groups)
  {
    if groups != [] {
      WellFormedSlice(key, groups, 1, |groups|);
      assert groups[1..] == groups[1..|groups|];
      KeysAreIds(key, groups[1..]);
      KeysOfConcat(key, groups[0].rows, Flatten(groups[1..]));
      IdsSplit(groups);
      assert KeysOf(key, groups[0].rows) == {groups[0].id} by {
        assert groups[0].rows[0] in groups[0].rows;
      }
    }
  }

  lemma LastRow<T(!new)>(key: T -> Uuid, groups: seq<Group<T>>)
    requires WellFormed(key, groups) && groups != []
    ensures Flatten(groups) != []
    ensures key(Flatten(groups)[|Flatten(groups)| - 1]) == groups[|groups| - 1].id
  {
    var g := groups[|groups| - 1];
    assert groups == groups[..|groups| - 1] + [g];
    FlattenConcat(groups[..|groups| - 1], [g]);
    assert Flatten([g]) == g.rows + Flatten([g][1..]) == g.rows;
    assert g.rows[|g.rows| - 1] in g.rows;
  }

  /**
   A page made of whole groups shows exactly as many distinct keys as it has groups, however
   many rows they have, and ends with the last group's key.
   */
  lemma GroupsOnAPage<T(!new)>(key: T -> Uuid, groups: seq<Group<T>>)
    requires WellFormed(key, groups)
    ensures |KeysOf(key, Flatten(groups))| == |groups|
    ensures groups == [] <==> Flatten(groups) == []
    ensures groups != [] ==> key(Flatten(groups)[|Flatten(groups)| - 1]) == groups[|groups| - 1].id
  {
    KeysAreIds(key, groups);
    DistinctIds(key, groups);
    if groups != [] {
      LastRow(key, groups);
    }
  }

  /**
   The page after the k-th group of an earlier listing is the same page of that listing, no
   matter what has been put in front of it since; the first page is that of the listing itself.
   */
  lemma PageOfGrown<T(!new)>(key: T -> Uuid, later: seq<Group<T>>, earlier: seq<Group<T>>,
                             k: nat, cursor: Uuid, limit: nat, ceiling: nat)
    requires WellFormed(key, later) && GrownFrom(later, earlier) && k <= |earlier|
    requires if k == 0 then cursor == NIL && later == earlier else cursor == earlier[k - 1].id
    ensures Page(later, cursor, limit, ceiling)
            == Flatten(earlier[k..Min(k + Min(limit, ceiling), |earlier|)])
  {
    if k > 0 {
      var p := |later| - |earlier|;
      assert earlier[k - 1] == later[p + k - 1];
      assert Skipped(later, cursor) == p + k by {
        SkippedAt(later, p + k - 1);
      }
      hide WellFormed, Skipped, Flatten;
      var hi := Min(k + Min(limit, ceiling), |earlier|);
      assert later[p + k..p + hi] == earlier[k..hi];
    }
  }

  /** What a page from the k-th group up to the hi-th shows to its reader. */
  lemma PageShows<T(!new)>(key: T -> Uuid, groups: seq<Group<T>>, k: nat, hi: nat)
    requires WellFormed(key, groups) && k <= hi <= |groups|
    ensures var rows := Flatten(groups[k..hi]);
            && |KeysOf(key, rows)| == hi - k
            && (k < hi ==> rows != [] && key(rows[|rows| - 1]) == groups[hi - 1].id
                           && groups[hi - 1].id != if k == 0 then NIL else groups[k - 1].id)
            && Flatten(groups[k..]) == rows + Flatten(groups[hi..])
  {
    hide Flatten, KeysOf;
    assert groups[k..] == groups[k..hi] + groups[hi..];
    WellFormedSlice(key, groups, k, hi);
    GroupsOnAPage(key, groups[k..hi]);
    FlattenConcat(groups[k..hi], groups[hi..]);
  }

  /** How many calls a walk over g groups takes: one for each full page and one more that is not full. */
  ghost function PagesNeeded(g: nat, limit: nat): nat
    requires limit >= 1
  {
    if g < limit then 1 else 1 + PagesNeeded(g - limit, limit)
  }

  lemma MultipleGrows(b: int, d: int)
    ensures b >= 0 && d >= 1 ==> b * d >= b
    ensures b >= 0 && d <= -1 ==> b * d <= -b
  {
  }

  lemma UniqueQuotient(b: int, q: int, r: int, q': int, r': int)
    requires 0 <= r < b && 0 <= r' < b && b * q + r == b * q' + r'
    ensures q == q'
  {
    MultipleGrows(b, q - q');
  }

  /** In closed form: floor(g / limit) + 1. */
  lemma {:induction false} PagesNeededClosed(g: nat, limit: nat)
    requires limit >= 1
    ensures PagesNeeded(g, limit) == g / limit + 1
  {
    if g >= limit {
      PagesNeededClosed(g - limit, limit);
      var h := g - limit;
      assert g == limit * (h / limit + 1) + h % limit;
      UniqueQuotient(limit, g / limit, g % limit, h / limit + 1, h % limit);
    } else {
      UniqueQuotient(limit, g / limit, g % limit, 0, g);
    }
  }
}
