/**
 * The ordering `GetLectures` puts on a query's answer: two stable sorts in a row, first by
 * `Week` (string order), then by `Time`. A stable sort's result is fully determined by the
 * comparison, so the sort is modelled as insertion sort, `StableSort`; the two passes together
 * are proved to be one stable sort by the key (time, week).
 */
module Sorting {
  import opened GoLib
  import opened Model

  /** The comparison functions handed to `slices.SortStableFunc`, and their combination. */
  datatype SortKey = ByWeek | ByTime | ByTimeWeek

  /** `a.Week` against `b.Week`, as the first comparator does it. */
  function CmpWeek(a: Lecture, b: Lecture): int {
    if StrLess(a.week, b.week) then -1 else if StrLess(b.week, a.week) then 1 else 0
  }

  /** `a.Time` against `b.Time`, as the second comparator does it. */
  function CmpTime(a: Lecture, b: Lecture): int {
    if a.time < b.time then -1 else if a.time > b.time then 1 else 0
  }

  /** Three-way comparison, -1 / 0 / 1 as the Go comparators return it. */
  function Cmp(k: SortKey, a: Lecture, b: Lecture): (c: int)
    ensures -1 <= c <= 1
  {
    match k
    case ByWeek => CmpWeek(a, b)
    case ByTime => CmpTime(a, b)
    case ByTimeWeek => if CmpTime(a, b) != 0 then CmpTime(a, b) else CmpWeek(a, b)
  }

  predicate Le(k: SortKey, a: Lecture, b: Lecture) {
    Cmp(k, a, b) <= 0
  }

  /** What "compares equal" means for each key. */
  lemma CmpZero(k: SortKey, a: Lecture, b: Lecture)
    ensures Cmp(k, a, b) == 0 <==> match k
      case ByWeek => a.week == b.week
      case ByTime => a.time == b.time
      case ByTimeWeek => a.time == b.time && a.week == b.week
  {
    StrLessTotal(a.week, b.week);
    StrLessIrreflexive(a.week);
  }

  /** The comparators are antisymmetric: swapping the arguments flips the sign. */
  lemma CmpFlip(k: SortKey, a: Lecture, b: Lecture)
    ensures Cmp(k, b, a) == -Cmp(k, a, b)
  {
    StrLessAsymmetric(a.week, b.week);
  }

  lemma LeTotal(k: SortKey, a: Lecture, b: Lecture)
    ensures Le(k, a, b) || Le(k, b, a)
  {
    CmpFlip(k, a, b);
  }

  lemma WeekLeTrans(a: Lecture, b: Lecture, c: Lecture)
    requires CmpWeek(a, b) <= 0 && CmpWeek(b, c) <= 0
    ensures CmpWeek(a, c) <= 0
  {
    StrLessTotal(a.week, b.week);
    StrLessTotal(b.week, c.week);
    StrLessAsymmetric(a.week, b.week);
    StrLessAsymmetric(b.week, c.week);
    StrLessAsymmetric(a.week, c.week);
    if StrLess(a.week, b.week) && StrLess(b.week, c.week) {
      StrLessTransitive(a.week, b.week, c.week);
    }
  }

  lemma LeTrans(k: SortKey, a: Lecture, b: Lecture, c: Lecture)
    requires Le(k, a, b) && Le(k, b, c)
    ensures Le(k, a, c)
  {
    if k == ByWeek || (k == ByTimeWeek && a.time == b.time == c.time) {
      WeekLeTrans(a, b, c);
    }
  }

  /** Two elements that compare equal are interchangeable on either side of a comparison. */
  lemma EqSubst(k: SortKey, a: Lecture, b: Lecture, c: Lecture)
    requires Cmp(k, a, b) == 0
    ensures Cmp(k, a, c) == Cmp(k, b, c)
  {
    CmpZero(k, a, b);
  }

  ghost predicate SortedBy(s: seq<Lecture>, k: SortKey) {
    forall i, j :: 0 <= i < j < |s| ==> Le(k, s[i], s[j])
  }

  // ---------------------------------------------------------------------------------------------
  // Insertion sort

  /** Inserts `x` after the last element of `t` that does not compare greater than it. */
  function Insert(t: seq<Lecture>, x: Lecture, k: SortKey): (r: seq<Lecture>)
    ensures |r| == |t| + 1
    decreases |t|
  {
    if t == [] || Le(k, t[|t| - 1], x) then t + [x]
    else Insert(t[..|t| - 1], x, k) + [t[|t| - 1]]
  }

  /** Stable sort of `s` by `k`: each element is inserted behind its equals. */
  function StableSort(s: seq<Lecture>, k: SortKey): (r: seq<Lecture>)
    ensures |r| == |s|
    ensures multiset(r) == multiset(s)
    decreases |s|
  {
    if s == [] then []
    else
      var front := s[..|s| - 1];
      InsertPermutes(StableSort(front, k), s[|s| - 1], k);
      assert s == front + [s[|s| - 1]];
      Insert(StableSort(front, k), s[|s| - 1], k)
  }

  /** `Insert` places `x` at a position `m`: everything behind it compares greater. */
  lemma {:induction false} InsertSplit(t: seq<Lecture>, x: Lecture, k: SortKey) returns (m: nat)
    ensures m <= |t| && Insert(t, x, k) == t[..m] + [x] + t[m..]
    ensures forall i :: m <= i < |t| ==> Cmp(k, t[i], x) > 0
    ensures m > 0 ==> Le(k, t[m - 1], x)
    decreases |t|
  {
    if t == [] || Le(k, t[|t| - 1], x) {
      m := |t|;
    } else {
      m := InsertSplit(t[..|t| - 1], x, k);
      SplitSnoc(t, m, x);
    }
  }

  /** Splitting all but the last element at `m` and putting the last back is splitting at `m`. */
  lemma SplitSnoc<T>(t: seq<T>, m: nat, x: T)
    requires m < |t|
    ensures var t' := t[..|t| - 1]; t'[..m] + [x] + t'[m..] + [t[|t| - 1]] == t[..m] + [x] + t[m..]
  {
    var t' := t[..|t| - 1];
    assert t'[..m] == t[..m];
    assert t'[m..] + [t[|t| - 1]] == t[m..];
  }

  lemma InsertPermutes(t: seq<Lecture>, x: Lecture, k: SortKey)
    ensures multiset(Insert(t, x, k)) == multiset(t) + multiset{x}
  {
    var m := InsertSplit(t, x, k);
    assert t == t[..m] + t[m..];
  }

  lemma InsertSorted(t: seq<Lecture>, x: Lecture, k: SortKey)
    requires SortedBy(t, k)
    ensures SortedBy(Insert(t, x, k), k)
  {
    var m := InsertSplit(t, x, k);
    forall i | 0 <= i < m ensures Le(k, t[i], x) {
      if i < m - 1 {
        LeTrans(k, t[i], t[m - 1], x);
      }
    }
    forall i | m <= i < |t| ensures Le(k, x, t[i]) {
      CmpFlip(k, t[i], x);
    }
    SortedAround(t, m, x, k);
  }

  /** `x` fits in at position `m` when it is no smaller than what comes before and no greater
      than what comes after. */
  lemma SortedAround(t: seq<Lecture>, m: nat, x: Lecture, k: SortKey)
    requires SortedBy(t, k) && m <= |t|
    requires forall i :: 0 <= i < m ==> Le(k, t[i], x)
    requires forall i :: m <= i < |t| ==> Le(k, x, t[i])
    ensures SortedBy(t[..m] + [x] + t[m..], k)
  {
    var r := t[..m] + [x] + t[m..];
    forall i, j | 0 <= i < j < |r| ensures Le(k, r[i], r[j]) {
      if j < m {
        assert r[i] == t[i] && r[j] == t[j];
      } else if i > m {
        assert r[i] == t[i - 1] && r[j] == t[j - 1];
      } else if i == m {
        assert r[j] == t[j - 1];
      } else if j == m {
        assert r[i] == t[i];
      } else {
        assert r[i] == t[i] && r[j] == t[j - 1];
      }
    }
  }

  /** The result of `StableSort` holds the same elements and is sorted. */
  lemma {:induction false} StableSortPermutes(s: seq<Lecture>, k: SortKey)
    ensures multiset(StableSort(s, k)) == multiset(s)
    ensures SortedBy(StableSort(s, k), k)
    decreases |s|
  {
    if s != [] {
      var s' := s[..|s| - 1];
      StableSortPermutes(s', k);
      InsertPermutes(StableSort(s', k), s[|s| - 1], k);
      InsertSorted(StableSort(s', k), s[|s| - 1], k);
      assert s == s' + [s[|s| - 1]];
    }
  }

  // ---------------------------------------------------------------------------------------------
  // Stability: the elements that compare equal to `p` keep their order

  /** The subsequence of `s` of the elements comparing equal to `p`. */
  function Class(s: seq<Lecture>, k: SortKey, p: Lecture): (r: seq<Lecture>)
    ensures |r| <= |s|
    decreases |s|
  {
    if s == [] then []
    else Class(s[..|s| - 1], k, p) + (if Cmp(k, s[|s| - 1], p) == 0 then [s[|s| - 1]] else [])
  }

  lemma {:induction false} ClassMembers(s: seq<Lecture>, k: SortKey, p: Lecture)
    ensures forall e :: e in Class(s, k, p) ==> e in s && Cmp(k, e, p) == 0
    decreases |s|
  {
    if s != [] {
      ClassMembers(s[..|s| - 1], k, p);
    }
  }

  lemma {:induction false} ClassAppend(a: seq<Lecture>, b: seq<Lecture>, k: SortKey, p: Lecture)
    ensures Class(a + b, k, p) == Class(a, k, p) + Class(b, k, p)
    decreases |b|
  {
    if b != [] {
      assert (a + b)[..|a + b| - 1] == a + b[..|b| - 1];
      ClassAppend(a, b[..|b| - 1], k, p);
    } else {
      assert a + b == a;
    }
  }

  /** Elements all greater than a member of `p`'s class hold no member of it. */
  lemma {:induction false} ClassOfGreater(u: seq<Lecture>, x: Lecture, k: SortKey, p: Lecture)
    requires Cmp(k, x, p) == 0
    requires forall i :: 0 <= i < |u| ==> Cmp(k, u[i], x) > 0
    ensures Class(u, k, p) == []
    decreases |u|
  {
    if u != [] {
      var e := u[|u| - 1];
      EqSubst(k, x, p, e);
      CmpFlip(k, e, x);
      CmpFlip(k, e, p);
      ClassOfGreater(u[..|u| - 1], x, k, p);
    }
  }

  lemma ClassSingleton(x: Lecture, k: SortKey, p: Lecture)
    ensures Class([x], k, p) == if Cmp(k, x, p) == 0 then [x] else []
  {
    assert [x][..0] == [];
  }

  /** Putting `x` between `front` and `back` adds it to `p`'s class at the end, provided
      nothing of that class follows it. */
  lemma ClassAround(front: seq<Lecture>, x: Lecture, back: seq<Lecture>, k: SortKey, p: Lecture)
    requires Cmp(k, x, p) == 0 ==> Class(back, k, p) == []
    ensures Class(front + [x] + back, k, p)
         == Class(front + back, k, p) + (if Cmp(k, x, p) == 0 then [x] else [])
  {
    ClassAppend(front + [x], back, k, p);
    ClassAppend(front, [x], k, p);
    ClassAppend(front, back, k, p);
    ClassSingleton(x, k, p);
  }

  /** Only `p`'s class changes when `x` is inserted, and `x` joins it at the end. */
  lemma InsertClass(t: seq<Lecture>, x: Lecture, k: SortKey, p: Lecture)
    ensures Class(Insert(t, x, k), k, p)
         == Class(t, k, p) + (if Cmp(k, x, p) == 0 then [x] else [])
  {
    var m := InsertSplit(t, x, k);
    var front, back := t[..m], t[m..];
    if Cmp(k, x, p) == 0 {
      forall i | 0 <= i < |back| ensures Cmp(k, back[i], x) > 0 {
        assert back[i] == t[m + i];
      }
      ClassOfGreater(back, x, k, p);
    }
    ClassAround(front, x, back, k, p);
    assert front + back == t;
  }

  /** `StableSort` keeps every class in its original order. */
  lemma {:induction false} StableSortStable(s: seq<Lecture>, k: SortKey, p: Lecture)
    ensures Class(StableSort(s, k), k, p) == Class(s, k, p)
    decreases |s|
  {
    if s != [] {
      StableSortStable(s[..|s| - 1], k, p);
      InsertClass(StableSort(s[..|s| - 1], k), s[|s| - 1], k, p);
    }
  }

  /** A sorted sequence is determined by its classes: this is why every stable sort agrees. */
  lemma {:induction false} SortedUnique(a: seq<Lecture>, b: seq<Lecture>, k: SortKey)
    requires SortedBy(a, k) && SortedBy(b, k)
    requires forall p :: Class(a, k, p) == Class(b, k, p)
    ensures a == b
    decreases |a|
  {
    if a == [] || b == [] {
      ClassOfLast(a, k);
      ClassOfLast(b, k);
    } else {
      var a', b' := a[..|a| - 1], b[..|b| - 1];
      LastsEquivalent(a, b, k);
      LastsAgree(a, b, k);
      FrontClassesAgree(a, b, a', b', k);
      SortedPrefix(a, k);
      SortedPrefix(b, k);
      SortedUnique(a', b', k);
      assert a == a' + [a[|a| - 1]] && b == b' + [b[|b| - 1]];
    }
  }

  /** Two sorted sequences with the same classes end in elements that compare equal... */
  lemma LastsEquivalent(a: seq<Lecture>, b: seq<Lecture>, k: SortKey)
    requires SortedBy(a, k) && SortedBy(b, k) && a != [] && b != []
    requires forall p :: Class(a, k, p) == Class(b, k, p)
    ensures Cmp(k, a[|a| - 1], b[|b| - 1]) == 0
  {
    var x, y := a[|a| - 1], b[|b| - 1];
    ClassOfLast(a, k);
    ClassOfLast(b, k);
    assert Class(a, k, y) == Class(b, k, y);
    LastClassSorted(a, k, y);
    assert Class(b, k, x) == Class(a, k, x);
    LastClassSorted(b, k, x);
    CmpFlip(k, x, y);
  }

  /** ...and so are the same element, the last of that class in both. */
  lemma LastsAgree(a: seq<Lecture>, b: seq<Lecture>, k: SortKey)
    requires a != [] && b != [] && Cmp(k, a[|a| - 1], b[|b| - 1]) == 0
    requires forall p :: Class(a, k, p) == Class(b, k, p)
    ensures a[|a| - 1] == b[|b| - 1]
  {
    var x, y := a[|a| - 1], b[|b| - 1];
    CmpZero(k, x, x);
    CmpFlip(k, x, y);
    var cx := Class(a, k, x);
    assert cx == Class(b, k, x) == Class(b[..|b| - 1], k, x) + [y];
    assert cx == Class(a[..|a| - 1], k, x) + [x];
    assert x == cx[|cx| - 1] == y;
  }

  /** With the last elements equal, the classes of what comes before them are equal too. */
  lemma FrontClassesAgree(a: seq<Lecture>, b: seq<Lecture>, a': seq<Lecture>, b': seq<Lecture>, k: SortKey)
    requires a != [] && b != [] && a[|a| - 1] == b[|b| - 1]
    requires a' == a[..|a| - 1] && b' == b[..|b| - 1]
    requires forall p :: Class(a, k, p) == Class(b, k, p)
    ensures forall p :: Class(a', k, p) == Class(b', k, p)
  {
    var x := a[|a| - 1];
    forall p ensures Class(a', k, p) == Class(b', k, p) {
      var e := if Cmp(k, x, p) == 0 then [x] else [];
      assert Class(a, k, p) == Class(a', k, p) + e;
      assert Class(b, k, p) == Class(b', k, p) + e;
      assert Class(a', k, p) == Class(a, k, p)[..|Class(a, k, p)| - |e|];
    }
  }

  lemma SortedPrefix(s: seq<Lecture>, k: SortKey)
    requires SortedBy(s, k) && s != []
    ensures SortedBy(s[..|s| - 1], k)
  {
  }

  /** The last element belongs to its own class. */
  lemma ClassOfLast(s: seq<Lecture>, k: SortKey)
    ensures s != [] ==> Class(s, k, s[|s| - 1]) == Class(s[..|s| - 1], k, s[|s| - 1]) + [s[|s| - 1]]
  {
    if s != [] {
      CmpZero(k, s[|s| - 1], s[|s| - 1]);
    }
  }

  /** In a sorted sequence, a non-empty class compares no greater than the last element. */
  lemma LastClassSorted(s: seq<Lecture>, k: SortKey, p: Lecture)
    requires SortedBy(s, k) && s != [] && Class(s, k, p) != []
    ensures Le(k, p, s[|s| - 1])
  {
    var c := Class(s, k, p);
    ClassMembers(s, k, p);
    assert c[0] in c;
    var i :| 0 <= i < |s| && s[i] == c[0];
    if i < |s| - 1 {
      assert Le(k, s[i], s[|s| - 1]);
    } else {
      CmpZero(k, s[i], s[i]);
    }
    CmpFlip(k, s[i], p);
    EqSubst(k, p, s[i], s[|s| - 1]);
  }

  // ---------------------------------------------------------------------------------------------
  // The two passes of GetLectures

  /** Sorting a week-sorted sequence stably by time leaves it sorted by (time, week). */
  lemma {:induction false} TimeSortOfWeekSorted(w: seq<Lecture>)
    requires SortedBy(w, ByWeek)
    ensures SortedBy(StableSort(w, ByTime), ByTimeWeek)
    decreases |w|
  {
    if w != [] {
      var w', x := w[..|w| - 1], w[|w| - 1];
      TimeSortOfWeekSorted(w');
      var t' := StableSort(w', ByTime);
      StableSortPermutes(w', ByTime);
      forall e | e in t' ensures CmpWeek(e, x) <= 0 {
        assert e in multiset(w');
        var i :| 0 <= i < |w'| && w'[i] == e;
        assert Le(ByWeek, w[i], w[|w| - 1]);
      }
      InsertRefined(t', x);
    }
  }

  /** Inserting by time an element whose week is no smaller than any present keeps (time, week)
      order. */
  lemma InsertRefined(t: seq<Lecture>, x: Lecture)
    requires SortedBy(t, ByTimeWeek)
    requires forall e :: e in t ==> CmpWeek(e, x) <= 0
    ensures SortedBy(Insert(t, x, ByTime), ByTimeWeek)
  {
    var m := InsertSplit(t, x, ByTime);
    forall i | 0 <= i < m ensures Le(ByTimeWeek, t[i], x) {
      assert t[i] in t;
      assert t[i].time <= x.time by {
        if i < m - 1 {
          assert Le(ByTimeWeek, t[i], t[m - 1]);
        }
      }
      TimeWeekLe(t[i], x);
    }
    forall i | m <= i < |t| ensures Le(ByTimeWeek, x, t[i]) {
      TimeWeekLe(x, t[i]);
    }
    SortedAround(t, m, x, ByTimeWeek);
  }

  /** The (time, week) order: by time, and by week among equal times. */
  lemma TimeWeekLe(a: Lecture, b: Lecture)
    requires a.time < b.time || (a.time == b.time && CmpWeek(a, b) <= 0)
    ensures Le(ByTimeWeek, a, b)
  {
  }

  /** Selecting by time and then by week, in either order, selects by (time, week). */
  lemma {:induction false} ClassCompose(q: seq<Lecture>, p: Lecture)
    ensures Class(Class(q, ByTime, p), ByWeek, p) == Class(q, ByTimeWeek, p)
    ensures Class(Class(q, ByWeek, p), ByTime, p) == Class(q, ByTimeWeek, p)
    decreases |q|
  {
    if q != [] {
      var q', e := q[..|q| - 1], q[|q| - 1];
      ClassCompose(q', p);
      CmpZero(ByTime, e, p);
      CmpZero(ByWeek, e, p);
      CmpZero(ByTimeWeek, e, p);
      var et := if Cmp(ByTime, e, p) == 0 then [e] else [];
      var ew := if Cmp(ByWeek, e, p) == 0 then [e] else [];
      ClassAppend(Class(q', ByTime, p), et, ByWeek, p);
      ClassAppend(Class(q', ByWeek, p), ew, ByTime, p);
      ClassSingleton(e, ByWeek, p);
      ClassSingleton(e, ByTime, p);
      assert Class([], ByWeek, p) == [] && Class([], ByTime, p) == [];
    }
  }

  /** Sorting by week and then, stably, by time is one stable sort by (time, week). */
  lemma TwoPassSort(s: seq<Lecture>)
    ensures StableSort(StableSort(s, ByWeek), ByTime) == StableSort(s, ByTimeWeek)
  {
    var w := StableSort(s, ByWeek);
    var r := StableSort(w, ByTime);
    StableSortPermutes(s, ByWeek);
    StableSortPermutes(s, ByTimeWeek);
    TimeSortOfWeekSorted(w);
    forall p ensures Class(r, ByTimeWeek, p) == Class(StableSort(s, ByTimeWeek), ByTimeWeek, p) {
      ClassCompose(r, p);
      ClassCompose(w, p);
      ClassCompose(s, p);
      StableSortStable(w, ByTime, p);
      StableSortStable(s, ByWeek, p);
      StableSortStable(s, ByTimeWeek, p);
    }
    SortedUnique(r, StableSort(s, ByTimeWeek), ByTimeWeek);
  }

  // ---------------------------------------------------------------------------------------------
  // The sort on the slice

  /** `slices.SortStableFunc(a, cmp)`: sorts `a` in place, stably. */
  method SortStableFunc(a: array<Lecture>, k: SortKey)
    modifies a
    ensures a[..] == StableSort(old(a[..]), k)
  {
    ghost var orig := a[..];
    var i := 0;
    while i < a.Length
      invariant 0 <= i <= a.Length
      invariant a[..i] == StableSort(orig[..i], k)
      invariant a[i..] == orig[i..]
    {
      ghost var sorted, rest := a[..i], a[i..];
      assert rest[0] == orig[i];
      InsertInto(a, i, k);
      StableSortStep(orig, i, k);
      assert a[i + 1..] == rest[1..] == orig[i + 1..];
      i := i + 1;
    }
    assert orig[..a.Length] == orig;
  }

  lemma StableSortStep(s: seq<Lecture>, i: nat, k: SortKey)
    requires i < |s|
    ensures StableSort(s[..i + 1], k) == Insert(StableSort(s[..i], k), s[i], k)
  {
    assert s[..i + 1][..i] == s[..i];
  }

  /** One step of insertion sort: moves `a[i]` back into the sorted prefix `a[..i]`. */
  method InsertInto(a: array<Lecture>, i: nat, k: SortKey)
    requires i < a.Length
    modifies a
    ensures a[..i + 1] == Insert(old(a[..i]), old(a[i]), k)
    ensures a[i + 1..] == old(a[i + 1..])
  {
    ghost var all := a[..];
    ghost var pre := a[..i];
    var x := a[i];
    var j := ShiftGreater(a, i, e => Cmp(k, e, x) > 0);
    InsertAt(pre, j, x, k);
    a[j] := x;
    Placed(all, a[..], i, j, x);
  }

  /** The array after the inner loop and the store of `x`, read as a sequence. */
  lemma Placed<T>(all: seq<T>, after: seq<T>, i: nat, j: nat, x: T)
    requires j <= i < |all| == |after| && after[j] == x
    requires forall m :: 0 <= m < j ==> after[m] == all[m]
    requires forall m :: j < m <= i ==> after[m] == all[m - 1]
    requires forall m :: i < m < |all| ==> after[m] == all[m]
    ensures after[..i + 1] == all[..i][..j] + [x] + all[..i][j..]
    ensures after[i + 1..] == all[i + 1..]
  {
    var pre := all[..i];
    var r := pre[..j] + [x] + pre[j..];
    forall m | 0 <= m <= i ensures after[m] == r[m] {
      if m > j {
        assert r[m] == pre[m - 1];
      } else if m < j {
        assert r[m] == pre[m];
      }
    }
  }

  /** The inner loop: shifts the elements at the end of `a[..i]` for which `greater` holds (those
      comparing greater than the element being inserted) one place right, and returns the gap
      left for that element. */
  method ShiftGreater<T>(a: array<T>, i: nat, greater: T -> bool) returns (j: nat)
    requires i < a.Length
    modifies a
    ensures j <= i && (j == 0 || !greater(old(a[j - 1])))
    ensures forall m :: j <= m < i ==> greater(old(a[m]))
    ensures forall m {:trigger a[m]} :: 0 <= m < j ==> a[m] == old(a[m])
    ensures forall m {:trigger a[m]} :: j < m <= i ==> a[m] == old(a[m - 1])
    ensures forall m {:trigger a[m]} :: i < m < a.Length ==> a[m] == old(a[m])
  {
    j := i;
    while j > 0 && greater(a[j - 1])
      invariant 0 <= j <= i
      invariant forall m :: j <= m < i ==> greater(old(a[m]))
      invariant forall m {:trigger a[m]} :: 0 <= m < j ==> a[m] == old(a[m])
      invariant forall m {:trigger a[m]} :: j < m <= i ==> a[m] == old(a[m - 1])
      invariant forall m {:trigger a[m]} :: i < m < a.Length ==> a[m] == old(a[m])
    {
      a[j] := a[j - 1];
      j := j - 1;
    }
  }

  /** Where the inner loop stops, `Insert` puts `x`: behind the greater suffix `pre[j..]`. */
  lemma {:induction false} InsertAt(pre: seq<Lecture>, j: nat, x: Lecture, k: SortKey)
    requires j <= |pre| && (j == 0 || Le(k, pre[j - 1], x))
    requires forall m :: j <= m < |pre| ==> Cmp(k, pre[m], x) > 0
    ensures Insert(pre, x, k) == pre[..j] + [x] + pre[j..]
    decreases |pre|
  {
    if j < |pre| {
      InsertAt(pre[..|pre| - 1], j, x, k);
      SplitSnoc(pre, j, x);
    } else {
      assert pre[..j] == pre && pre[j..] == [];
    }
  }
}
