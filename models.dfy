/**
 * Assignments and the date-bucketed assignment collection: a dictionary from
 * calendar date to the list of assignments due that day.
 */
module Models {
  import opened Wrappers
  import opened Dates

  datatype Assignment = Assignment(
    name: string,
    course: string,
    dueDate: DateTime,
    dueTime: string,
    url: Option<string>)

  /** `Assignment.date_key`: the calendar date of the due timestamp. */
  function DateKey(a: Assignment): (k: Date)
    ensures ValidDateTime(a.dueDate) ==> ValidDate(k)
  {
    a.dueDate.date
  }

  // ---------------------------------------------------------------------------
  // Sorting a bucket by due date (Python's stable `list.sort(key = due_date)`)
  // ---------------------------------------------------------------------------

  predicate DueLe(a: Assignment, b: Assignment) {
    DateTimeLe(a.dueDate, b.dueDate)
  }

  predicate SortedByDue(s: seq<Assignment>) {
    forall i, j :: 0 <= i < j < |s| ==> DueLe(s[i], s[j])
  }

  /** The entries of `s` due exactly at `t`, in their order in `s`. */
  function DueAt(s: seq<Assignment>, t: DateTime): (r: seq<Assignment>)
    ensures |r| <= |s|
  {
    if s == [] then []
    else DueAt(s[..|s| - 1], t) + if s[|s| - 1].dueDate == t then [s[|s| - 1]] else []
  }

  /** Inserts `x` into `s` after every entry not due later than `x`. */
  function InsertByDue(s: seq<Assignment>, x: Assignment): (r: seq<Assignment>)
    ensures |r| == |s| + 1
  {
    if s == [] || DueLe(s[|s| - 1], x) then s + [x]
    else InsertByDue(s[..|s| - 1], x) + [s[|s| - 1]]
  }

  /** A stable insertion sort by due date: the reference for Python's `list.sort`. */
  function SortByDue(s: seq<Assignment>): (r: seq<Assignment>)
    ensures |r| == |s|
  {
    if s == [] then [] else InsertByDue(SortByDue(s[..|s| - 1]), s[|s| - 1])
  }

  lemma DueAtSnoc(s: seq<Assignment>, z: Assignment, t: DateTime)
    ensures DueAt(s + [z], t) == DueAt(s, t) + DueAt([z], t)
  {
    assert (s + [z])[..|s|] == s;
  }

  lemma {:induction false} InsertByDuePermutation(s: seq<Assignment>, x: Assignment)
    ensures multiset(InsertByDue(s, x)) == multiset(s) + multiset{x}
  {
    if !(s == [] || DueLe(s[|s| - 1], x)) {
      var p := s[..|s| - 1];
      assert s == p + [s[|s| - 1]];
      InsertByDuePermutation(p, x);
    }
  }

  lemma {:induction false} InsertByDueSorted(s: seq<Assignment>, x: Assignment)
    requires SortedByDue(s)
    ensures SortedByDue(InsertByDue(s, x))
  {
    if s == [] || DueLe(s[|s| - 1], x) {
      forall i, j | 0 <= i < j < |s + [x]| ensures DueLe((s + [x])[i], (s + [x])[j]) {
        if j == |s| {
          DateTimeLeTotalOrder(s[i].dueDate, s[|s| - 1].dueDate, x.dueDate);
        } else {
          assert (s + [x])[i] == s[i] && (s + [x])[j] == s[j];
        }
      }
    } else {
      var p, z := s[..|s| - 1], s[|s| - 1];
      assert SortedByDue(p);
      InsertByDueSorted(p, x);
      InsertByDuePermutation(p, x);
      var q := InsertByDue(p, x);
      forall i | 0 <= i < |q| ensures DueLe(q[i], z) {
        var e := q[i];
        assert e in multiset(q);
        if e == x {
          DateTimeLeTotalOrder(x.dueDate, z.dueDate, x.dueDate);
        } else {
          assert e in multiset(p);
          var k :| 0 <= k < |p| && p[k] == e;
          assert s[k] == e;
        }
      }
      assert InsertByDue(s, x) == q + [z];
      forall i, j | 0 <= i < j < |q + [z]| ensures DueLe((q + [z])[i], (q + [z])[j]) {
        if j < |q| {
          assert (q + [z])[i] == q[i] && (q + [z])[j] == q[j];
        }
      }
    }
  }

  lemma {:induction false} InsertByDueStable(s: seq<Assignment>, x: Assignment, t: DateTime)
    requires SortedByDue(s)
    ensures DueAt(InsertByDue(s, x), t) == DueAt(s, t) + DueAt([x], t)
  {
    if s == [] || DueLe(s[|s| - 1], x) {
      DueAtSnoc(s, x, t);
    } else {
      var p, z := s[..|s| - 1], s[|s| - 1];
      assert s == p + [z];
      assert SortedByDue(p);
      InsertByDueStable(p, x, t);
      DueAtSnoc(InsertByDue(p, x), z, t);
      DueAtSnoc(p, z, t);
      if x.dueDate == t && z.dueDate == t {
        DateTimeLeTotalOrder(z.dueDate, x.dueDate, z.dueDate);
      }
    }
  }

  /** The sorted bucket is in ascending due order and holds exactly the entries of the input. */
  lemma {:induction false} SortByDueSortedPermutation(s: seq<Assignment>)
    ensures SortedByDue(SortByDue(s))
    ensures multiset(SortByDue(s)) == multiset(s)
  {
    if s != [] {
      var p := s[..|s| - 1];
      assert s == p + [s[|s| - 1]];
      SortByDueSortedPermutation(p);
      InsertByDueSorted(SortByDue(p), s[|s| - 1]);
      InsertByDuePermutation(SortByDue(p), s[|s| - 1]);
    }
  }

  /** Stability: the entries due at any one timestamp keep their insertion order. */
  lemma {:induction false} SortByDueStable(s: seq<Assignment>, t: DateTime)
    ensures DueAt(SortByDue(s), t) == DueAt(s, t)
  {
    if s != [] {
      var p := s[..|s| - 1];
      SortByDueStable(p, t);
      SortByDueSortedPermutation(p);
      InsertByDueStable(SortByDue(p), s[|s| - 1], t);
      DueAtSnoc(p, s[|s| - 1], t);
      assert s == p + [s[|s| - 1]];
    }
  }

  /** Sorting an already sorted bucket leaves it as it is. */
  lemma {:induction false} SortByDueOfSorted(s: seq<Assignment>)
    requires SortedByDue(s)
    ensures SortByDue(s) == s
  {
    if s != [] {
      var p := s[..|s| - 1];
      assert s == p + [s[|s| - 1]];
      assert SortedByDue(p);
      SortByDueOfSorted(p);
      if |p| > 0 {
        assert DueLe(p[|p| - 1], s[|s| - 1]);
      }
    }
  }

  /** Sorting twice is sorting once. */
  lemma SortByDueIdempotent(s: seq<Assignment>)
    ensures SortByDue(SortByDue(s)) == SortByDue(s)
  {
    SortByDueSortedPermutation(s);
    SortByDueOfSorted(SortByDue(s));
  }

  lemma {:induction false} DueAtMembers(s: seq<Assignment>, t: DateTime, x: Assignment)
    requires x in DueAt(s, t)
    ensures x in s && x.dueDate == t
  {
    var p := s[..|s| - 1];
    assert s == p + [s[|s| - 1]];
    if x in DueAt(p, t) {
      DueAtMembers(p, t, x);
    }
  }

  /** In a sequence sorted by due date, the last entry is due no earlier than any entry due at `t`. */
  lemma LastIsLatest(r: seq<Assignment>, t: DateTime)
    requires SortedByDue(r) && DueAt(r, t) != []
    ensures DateTimeLe(t, r[|r| - 1].dueDate)
  {
    var x := DueAt(r, t)[0];
    DueAtMembers(r, t, x);
    var i :| 0 <= i < |r| && r[i] == x;
    assert DueLe(r[i], r[|r| - 1]) || i == |r| - 1;
  }

  /** `r1` and `r2` list the entries due at every timestamp in the same order. */
  ghost predicate SameOrderAtEachTime(r1: seq<Assignment>, r2: seq<Assignment>) {
    forall t :: DueAt(r1, t) == DueAt(r2, t)
  }

  lemma LastDue(p: seq<Assignment>, a: Assignment)
    ensures DueAt(p + [a], a.dueDate) == DueAt(p, a.dueDate) + [a]
  {
    DueAtSnoc(p, a, a.dueDate);
  }

  lemma SameLastDue(p1: seq<Assignment>, a: Assignment, p2: seq<Assignment>, b: Assignment)
    requires SortedByDue(p1 + [a]) && SortedByDue(p2 + [b])
    requires DueAt(p1 + [a], a.dueDate) == DueAt(p2 + [b], a.dueDate)
    requires DueAt(p1 + [a], b.dueDate) == DueAt(p2 + [b], b.dueDate)
    ensures a.dueDate == b.dueDate
  {
    LastDue(p1, a);
    LastDue(p2, b);
    LastIsLatest(p2 + [b], a.dueDate);
    LastIsLatest(p1 + [a], b.dueDate);
    DateTimeLeTotalOrder(a.dueDate, b.dueDate, a.dueDate);
  }

  lemma SameLast(p1: seq<Assignment>, a: Assignment, p2: seq<Assignment>, b: Assignment)
    requires SortedByDue(p1 + [a]) && SortedByDue(p2 + [b])
    requires SameOrderAtEachTime(p1 + [a], p2 + [b])
    ensures a == b && SameOrderAtEachTime(p1, p2)
  {
    SameLastDue(p1, a, p2, b);
    LastDue(p1, a);
    LastDue(p2, b);
    var d1 := DueAt(p1 + [a], a.dueDate);
    var d2 := DueAt(p2 + [b], a.dueDate);
    assert d1 == d2;
    assert d1[|d1| - 1] == a && d2[|d2| - 1] == b;
    forall t ensures DueAt(p1, t) == DueAt(p2, t) {
      DueAtSnoc(p1, a, t);
      DueAtSnoc(p2, b, t);
      assert DueAt(p1 + [a], t) == DueAt(p2 + [b], t);
      if t == a.dueDate {
        assert DueAt(p1, t) == d1[..|d1| - 1];
        assert DueAt(p2, t) == d2[..|d2| - 1];
      } else {
        assert DueAt([a], t) == [] && DueAt([b], t) == [];
        assert DueAt(p1 + [a], t) == DueAt(p1, t);
        assert DueAt(p2 + [b], t) == DueAt(p2, t);
      }
      assert DueAt(p1, t) == DueAt(p2, t);
    }
  }

  lemma LastInDueAt(r: seq<Assignment>)
    requires r != []
    ensures DueAt(r, r[|r| - 1].dueDate) != []
  {
  }

  /**
   * Two sequences sorted by due date whose entries at every timestamp come in the
   * same order are equal: a stable sort has exactly one possible result.
   */
  lemma {:induction false} StableSortUnique(r1: seq<Assignment>, r2: seq<Assignment>)
    requires SortedByDue(r1) && SortedByDue(r2) && SameOrderAtEachTime(r1, r2)
    ensures r1 == r2
    decreases |r1|
  {
    if r1 != [] && r2 != [] {
      var p1, p2 := r1[..|r1| - 1], r2[..|r2| - 1];
      assert r1 == p1 + [r1[|r1| - 1]] && r2 == p2 + [r2[|r2| - 1]];
      SameLast(p1, r1[|r1| - 1], p2, r2[|r2| - 1]);
      assert SortedByDue(p1) && SortedByDue(p2);
      StableSortUnique(p1, p2);
    } else if r1 != [] {
      LastInDueAt(r1);
      assert false;
    } else if r2 != [] {
      LastInDueAt(r2);
      assert false;
    }
  }

  /** Any stable sort of a bucket by due date returns what `SortByDue` returns. */
  lemma SortByDueIsTheStableSort(s: seq<Assignment>, r: seq<Assignment>)
    requires SortedByDue(r) && SameOrderAtEachTime(r, s)
    ensures r == SortByDue(s)
  {
    SortByDueSortedPermutation(s);
    forall t ensures DueAt(r, t) == DueAt(SortByDue(s), t) {
      SortByDueStable(s, t);
    }
    StableSortUnique(r, SortByDue(s));
  }

  // ---------------------------------------------------------------------------
  // The collection's dictionary and what its operations do to it
  // ---------------------------------------------------------------------------

  type Buckets = map<Date, seq<Assignment>>

  /**
   * The collection invariant: keys are only ever created by appending, so no bucket
   * is empty, and every entry sits under its own date key.
   */
  ghost predicate BucketsValid(m: Buckets) {
    forall d :: d in m ==> m[d] != [] && forall a :: a in m[d] ==> DateKey(a) == d
  }

  /** What `self._assignments_by_date.get(d, [])` returns, before sorting. */
  function Bucket(m: Buckets, d: Date): seq<Assignment> {
    if d in m then m[d] else []
  }

  /** The dictionary after `add_assignment(a)`. */
  function Inserted(m: Buckets, a: Assignment): (r: Buckets)
    ensures r.Keys == m.Keys + {DateKey(a)}
    ensures |r[DateKey(a)]| == |Bucket(m, DateKey(a))| + 1 && r[DateKey(a)][|Bucket(m, DateKey(a))|] == a
    ensures r[DateKey(a)][..|Bucket(m, DateKey(a))|] == Bucket(m, DateKey(a))
    ensures forall d :: d in m && d != DateKey(a) ==> r[d] == m[d]
  {
    m[DateKey(a) := Bucket(m, DateKey(a)) + [a]]
  }

  /** The list `get_assignments_for_date(d)` returns. */
  function Query(m: Buckets, d: Date): (r: seq<Assignment>)
    ensures |r| == |Bucket(m, d)|
    ensures d !in m ==> r == []
  {
    SortByDue(Bucket(m, d))
  }

  /** The dictionary after `get_assignments_for_date(d)`: the bucket is sorted in place, no key appears. */
  function AfterQuery(m: Buckets, d: Date): (r: Buckets)
    ensures r.Keys == m.Keys
    ensures forall e :: e in m && e != d ==> r[e] == m[e]
    ensures d in m ==> |r[d]| == |m[d]|
  {
    if d in m then m[d := SortByDue(m[d])] else m
  }

  /** Adding keeps the invariant. */
  lemma InsertedValid(m: Buckets, a: Assignment)
    requires BucketsValid(m)
    ensures BucketsValid(Inserted(m, a))
  {
  }

  /** After adding `a`, it is in the bucket of its date, and every other date is as before. */
  lemma InsertedBuckets(m: Buckets, a: Assignment)
    ensures DateKey(a) in Inserted(m, a)
    ensures a in Query(Inserted(m, a), DateKey(a))
    ensures forall d :: d != DateKey(a) ==> (d in Inserted(m, a) <==> d in m)
    ensures forall d :: d != DateKey(a) ==> Query(Inserted(m, a), d) == Query(m, d)
  {
    var k := DateKey(a);
    assert Bucket(Inserted(m, a), k) == Bucket(m, k) + [a];
    SortByDueSortedPermutation(Bucket(m, k) + [a]);
    assert a in multiset(Query(Inserted(m, a), k));
    forall d | d != k ensures Bucket(Inserted(m, a), d) == Bucket(m, d) {
    }
  }

  /** No deduplication: every add puts one more copy of `a` in its bucket. */
  lemma InsertedNoDedup(m: Buckets, a: Assignment)
    ensures multiset(Query(Inserted(m, a), DateKey(a)))[a] == multiset(Query(m, DateKey(a)))[a] + 1
    ensures |Query(Inserted(m, a), DateKey(a))| == |Query(m, DateKey(a))| + 1
  {
    var k := DateKey(a);
    SortByDueSortedPermutation(Bucket(m, k) + [a]);
    SortByDueSortedPermutation(Bucket(m, k));
    assert |multiset(Query(Inserted(m, a), k))| == |multiset(Query(m, k))| + 1;
  }

  /** A date never added yields an empty list, and querying it does not create a key. */
  lemma QueryAbsent(m: Buckets, d: Date)
    requires d !in m
    ensures Query(m, d) == [] && AfterQuery(m, d) == m
  {
  }

  /** The query result is sorted, is a permutation of the bucket, and is stable. */
  lemma QuerySortedStable(m: Buckets, d: Date)
    ensures SortedByDue(Query(m, d))
    ensures multiset(Query(m, d)) == multiset(Bucket(m, d))
    ensures SameOrderAtEachTime(Query(m, d), Bucket(m, d))
  {
    SortByDueSortedPermutation(Bucket(m, d));
    forall t ensures DueAt(Query(m, d), t) == DueAt(Bucket(m, d), t) {
      SortByDueStable(Bucket(m, d), t);
    }
  }

  /**
   * A query reorders only the queried bucket and keeps its entries and the keys, so
   * querying again returns the same list and leaves the dictionary as the first query did.
   */
  lemma QueryRepeatable(m: Buckets, d: Date)
    ensures AfterQuery(m, d).Keys == m.Keys
    ensures forall e :: e != d && e in m ==> AfterQuery(m, d)[e] == m[e]
    ensures multiset(Bucket(AfterQuery(m, d), d)) == multiset(Bucket(m, d))
    ensures Query(AfterQuery(m, d), d) == Query(m, d)
    ensures AfterQuery(AfterQuery(m, d), d) == AfterQuery(m, d)
  {
    SortByDueSortedPermutation(Bucket(m, d));
    SortByDueIdempotent(Bucket(m, d));
  }

  /** Querying keeps the invariant. */
  lemma AfterQueryValid(m: Buckets, d: Date)
    requires BucketsValid(m)
    ensures BucketsValid(AfterQuery(m, d))
  {
    if d in m {
      SortByDueSortedPermutation(m[d]);
      forall a | a in SortByDue(m[d]) ensures DateKey(a) == d {
        assert a in multiset(SortByDue(m[d]));
      }
      assert |SortByDue(m[d])| == |multiset(m[d])|;
    }
  }

  /** Under the invariant, "the key is present" is "the query is non-empty". */
  lemma HasIffNonEmpty(m: Buckets, d: Date)
    requires BucketsValid(m)
    ensures d in m <==> Query(m, d) != []
  {
    SortByDueSortedPermutation(Bucket(m, d));
    assert |Query(m, d)| == |multiset(Bucket(m, d))|;
  }

  /** Under the invariant, a query for `d` yields only assignments whose date key is `d`. */
  lemma QueryOnlyOwnDate(m: Buckets, d: Date, a: Assignment)
    requires BucketsValid(m) && a in Query(m, d)
    ensures DateKey(a) == d
  {
    SortByDueSortedPermutation(Bucket(m, d));
    assert a in multiset(Query(m, d));
  }

  /** `AssignmentCollection`: the dictionary from date to the assignments due that day. */
  class AssignmentCollection {
    var byDate: Buckets

    ghost predicate Valid()
      reads this
    {
      BucketsValid(byDate)
    }

    constructor ()
      ensures Valid() && byDate == map[]
    {
      byDate := map[];
    }

    /** `add_assignment`: append to the bucket for the assignment's date. */
    method AddAssignment(a: Assignment)
      requires Valid()
      modifies this
      ensures Valid() && byDate == Inserted(old(byDate), a)
    {
      var k := DateKey(a);
      var bucket := if k in byDate then byDate[k] else [];
      byDate := byDate[k := bucket + [a]];
      InsertedValid(old(byDate), a);
    }

    /** `get_assignments_for_date`: sort the stored bucket in place by due date and return it. */
    method GetAssignmentsForDate(d: Date) returns (r: seq<Assignment>)
      requires Valid()
      modifies this
      ensures Valid()
      ensures r == Query(old(byDate), d) && byDate == AfterQuery(old(byDate), d)
      ensures SortedByDue(r) && multiset(r) == multiset(Bucket(old(byDate), d))
    {
      QuerySortedStable(byDate, d);
      AfterQueryValid(byDate, d);
      if d in byDate {
        r := SortByDue(byDate[d]);
        byDate := byDate[d := r];
      } else {
        r := [];
      }
    }

    /** `has_assignments_for_date`: whether the date is a key of the dictionary. */
    method HasAssignmentsForDate(d: Date) returns (r: bool)
      requires Valid()
      ensures r <==> d in byDate
      ensures r <==> Query(byDate, d) != []
    {
      HasIffNonEmpty(byDate, d);
      r := d in byDate;
    }

    /** `clear`: empty the dictionary. */
    method Clear()
      modifies this
      ensures Valid() && byDate == map[]
      ensures forall d :: Query(byDate, d) == []
    {
      byDate := map[];
    }
  }
}
