/**
 * The order of the `GET /appointments` listing (server2.js): the appointment
 * list sorted by `createdAt`, newest first, with the comparator
 * `new Date(b.createdAt) - new Date(a.createdAt)`. `Array.prototype.sort` is
 * stable, so appointments created in the same millisecond keep their order.
 * The sort is the library's, not the program's; it is specified here by a
 * stable insertion sort and its three defining properties.
 */
module Listing {
  import opened Booking

  /** Every appointment is created no earlier than the ones after it. */
  predicate NewestFirst(s: seq<Appointment>)
  {
    forall i, j :: 0 <= i < j < |s| ==> s[i].createdAt >= s[j].createdAt
  }

  /** The appointments of `s` created at time `t`, in their order in `s`. */
  function CreatedAt(s: seq<Appointment>, t: nat): (r: seq<Appointment>)
    ensures |r| <= |s|
  {
    if s == [] then []
    else (if s[0].createdAt == t then [s[0]] else []) + CreatedAt(s[1..], t)
  }

  /** No appointment of `s` is newer than `t`. */
  predicate NoneNewerThan(s: seq<Appointment>, t: nat)
  {
    forall i :: 0 <= i < |s| ==> s[i].createdAt <= t
  }

  /** Whether no element is newer than `t` depends only on which elements there are. */
  lemma NoneNewerByMembers(s: seq<Appointment>, u: seq<Appointment>, t: nat)
    requires multiset(s) == multiset(u) && NoneNewerThan(u, t)
    ensures NoneNewerThan(s, t)
  {
    forall i | 0 <= i < |s|
      ensures s[i].createdAt <= t
    {
      assert s[i] in multiset(u);
      var j :| 0 <= j < |u| && u[j] == s[i];
    }
  }

  /** An appointment newer than `x` and than the rest of a sorted list stays in front after `x` is inserted. */
  lemma NewerStaysFirst(x: Appointment, s: seq<Appointment>, rest: seq<Appointment>)
    requires s != [] && s[0].createdAt > x.createdAt
    requires multiset(rest) == multiset(s[1..]) + multiset{x}
    requires NewestFirst(s[1..]) ==> NewestFirst(rest)
    ensures NewestFirst(s) ==> NewestFirst([s[0]] + rest)
  {
    if NewestFirst(s) {
      assert NoneNewerThan(s[1..] + [x], s[0].createdAt);
      assert multiset(rest) == multiset(s[1..] + [x]);
      NoneNewerByMembers(rest, s[1..] + [x], s[0].createdAt);
    }
  }

  /**
   * `x` placed before the first appointment of `s` that is not newer than it:
   * after every newer one and before every one created at the same time.
   */
  function Insert(x: Appointment, s: seq<Appointment>): (r: seq<Appointment>)
    ensures multiset(r) == multiset(s) + multiset{x}
    ensures NewestFirst(s) ==> NewestFirst(r)
  {
    if s == [] || s[0].createdAt <= x.createdAt then
      [x] + s
    else
      var rest := Insert(x, s[1..]);
      assert s == [s[0]] + s[1..];
      NewerStaysFirst(x, s, rest);
      [s[0]] + rest
  }

  /** Inserting `x` puts it first among the appointments created at its time. */
  lemma {:induction false} InsertCreatedAt(x: Appointment, s: seq<Appointment>, t: nat)
    ensures CreatedAt(Insert(x, s), t) == if x.createdAt == t then [x] + CreatedAt(s, t) else CreatedAt(s, t)
  {
    if s == [] || s[0].createdAt <= x.createdAt {
      assert ([x] + s)[1..] == s;
    } else {
      var rest := Insert(x, s[1..]);
      InsertCreatedAt(x, s[1..], t);
      assert ([s[0]] + rest)[1..] == rest;
    }
  }

  /** The listing order: newest first, the same appointments, ties in their stored order. */
  function SortNewestFirst(s: seq<Appointment>): (r: seq<Appointment>)
    ensures NewestFirst(r)
    ensures multiset(r) == multiset(s)
  {
    if s == [] then []
    else
      assert s == [s[0]] + s[1..];
      Insert(s[0], SortNewestFirst(s[1..]))
  }

  /** Sorting is stable: the appointments created at any one time keep their stored order. */
  lemma {:induction false} SortStable(s: seq<Appointment>, t: nat)
    ensures CreatedAt(SortNewestFirst(s), t) == CreatedAt(s, t)
  {
    if s != [] {
      SortStable(s[1..], t);
      InsertCreatedAt(s[0], SortNewestFirst(s[1..]), t);
    }
  }

  /** A list already newest first is left as it is. */
  lemma {:induction false} SortOfSorted(s: seq<Appointment>)
    requires NewestFirst(s)
    ensures SortNewestFirst(s) == s
  {
    if s != [] {
      SortOfSorted(s[1..]);
      assert s == [s[0]] + s[1..];
    }
  }

  /** Listing twice gives the same order as listing once, although each listing sorts the stored list in place. */
  lemma SortIdempotent(s: seq<Appointment>)
    ensures SortNewestFirst(SortNewestFirst(s)) == SortNewestFirst(s)
  {
    SortOfSorted(SortNewestFirst(s));
  }

  /** Sorting keeps every appointment: the listing holds exactly the stored ones, each as often. */
  lemma SortKeepsMembers(s: seq<Appointment>, a: Appointment)
    ensures a in SortNewestFirst(s) <==> a in s
  {
    assert a in multiset(SortNewestFirst(s)) <==> a in multiset(s);
  }
}
