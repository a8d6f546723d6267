/** The time covered by the breaks of a beatmap: a sweep over clipped, sorted intervals. */
module BreakSweep {
  import opened Basics

  datatype Interval = Interval(left: int, right: int)

  // ---------------------------------------------------------------- what is measured

  predicate Covers(s: seq<Interval>, t: int) {
    exists i :: 0 <= i < |s| && s[i].left <= t < s[i].right
  }

  /** The instants of a range inside at least one interval. */
  function Covered(s: seq<Interval>, start: int, end: int): set<int> {
    set t | start <= t < end && Covers(s, t)
  }

  predicate Hits(x: Interval, t: int) { x.left <= t < x.right }

  function Range(a: int, b: int): set<int> { set t | a <= t < b && Hits(Interval(a, b), t) }

  lemma {:induction false} RangeSize(a: int, b: int)
    requires a <= b
    ensures |Range(a, b)| == b - a
    decreases b - a
  {
    if a < b {
      RangeSize(a + 1, b);
      assert Range(a, b) == Range(a + 1, b) + {a};
    } else {
      assert Range(a, b) == {};
    }
  }

  // ---------------------------------------------------------------- clipping and sorting

  function Clipped(breaks: seq<Interval>, start: int, end: int): seq<Interval> {
    if breaks == [] then []
    else
      var b := breaks[0];
      (if b.right > start && b.left < end
       then [Interval(if start < b.left then b.left else start, if b.right < end then b.right else end)] else []) +
      Clipped(breaks[1..], start, end)
  }

  predicate Before(a: Interval, b: Interval) { a.left < b.left || (a.left == b.left && a.right <= b.right) }

  function Insert(s: seq<Interval>, x: Interval): seq<Interval> {
    if s == [] then [x] else if Before(x, s[0]) then [x] + s else [s[0]] + Insert(s[1..], x)
  }

  function Sorted(s: seq<Interval>): seq<Interval> {
    if s == [] then [] else Insert(Sorted(s[1..]), s[0])
  }

  lemma {:induction false} InsertMembers(s: seq<Interval>, x: Interval, y: Interval)
    ensures y in Insert(s, x) <==> y == x || y in s
  {
    if s != [] {
      InsertMembers(s[1..], x, y);
      assert s == [s[0]] + s[1..];
    }
  }

  lemma {:induction false} SortedMembers(s: seq<Interval>, y: Interval)
    ensures y in Sorted(s) <==> y in s
  {
    if s != [] {
      SortedMembers(s[1..], y);
      InsertMembers(Sorted(s[1..]), s[0], y);
      assert s == [s[0]] + s[1..];
    }
  }

  predicate Ordered(s: seq<Interval>) {
    forall i, j :: 0 <= i < j < |s| ==> s[i].left <= s[j].left
  }

  lemma {:induction false} InsertOrdered(s: seq<Interval>, x: Interval)
    requires Ordered(s)
    ensures Ordered(Insert(s, x))
  {
    if s != [] && !Before(x, s[0]) {
      InsertOrdered(s[1..], x);
      var rest := Insert(s[1..], x);
      forall i | 0 <= i < |rest| ensures s[0].left <= rest[i].left { InsertMembers(s[1..], x, rest[i]); }
    }
  }

  lemma {:induction false} SortedOrdered(s: seq<Interval>)
    ensures Ordered(Sorted(s))
  {
    if s != [] {
      SortedOrdered(s[1..]);
      InsertOrdered(Sorted(s[1..]), s[0]);
    }
  }

  lemma CoversByMember(s: seq<Interval>, t: int)
    ensures Covers(s, t) <==> exists x :: x in s && Hits(x, t)
  {
    if Covers(s, t) {
      var i :| 0 <= i < |s| && s[i].left <= t < s[i].right;
      assert s[i] in s && Hits(s[i], t);
    }
  }

  lemma SortedCovers(s: seq<Interval>, t: int)
    ensures Covers(Sorted(s), t) <==> Covers(s, t)
  {
    hide Sorted, Covers, Hits;
    CoversByMember(s, t);
    CoversByMember(Sorted(s), t);
    forall x ensures x in Sorted(s) <==> x in s { SortedMembers(s, x); }
  }

  lemma {:induction false} ClippedCovers(breaks: seq<Interval>, start: int, end: int, t: int)
    requires start <= t < end
    ensures Covers(Clipped(breaks, start, end), t) <==> Covers(breaks, t)
  {
    if breaks != [] {
      var rest := Clipped(breaks[1..], start, end);
      ClippedCovers(breaks[1..], start, end, t);
      CoversHead(breaks, t);
      var b := breaks[0];
      if b.right > start && b.left < end {
        var c := Interval(if start < b.left then b.left else start, if b.right < end then b.right else end);
        assert Clipped(breaks, start, end) == [c] + rest;
        CoversHead([c] + rest, t);
        assert ([c] + rest)[1..] == rest;
      } else {
        assert Clipped(breaks, start, end) == rest;
      }
    }
  }

  lemma CoversHead(s: seq<Interval>, t: int)
    requires s != []
    ensures Covers(s, t) <==> Hits(s[0], t) || Covers(s[1..], t)
  {
    if Covers(s, t) {
      var i :| 0 <= i < |s| && s[i].left <= t < s[i].right;
      if i > 0 { assert s[1..][i - 1] == s[i]; }
    }
    if Covers(s[1..], t) {
      var i :| 0 <= i < |s[1..]| && s[1..][i].left <= t < s[1..][i].right;
      assert s[i + 1] == s[1..][i];
    }
  }

  predicate Within(x: Interval, start: int, end: int) { start <= x.left && x.right <= end && x.left >= 0 }

  lemma {:induction false} ClippedWithin(breaks: seq<Interval>, start: int, end: int, x: Interval)
    requires forall i :: 0 <= i < |breaks| ==> breaks[i].left >= 0
    ensures x in Clipped(breaks, start, end) ==> Within(x, start, end)
  {
    if breaks != [] { ClippedWithin(breaks[1..], start, end, x); }
  }

  // ---------------------------------------------------------------- the sweep

  /** What has been swept is a closed part before the current interval, and the current interval. */
  ghost predicate Swept(seen: set<int>, closed: set<int>, covered: int, low: int, high: int) {
    (if high == 0 then seen == {} && closed == {} && low == 0
     else 0 <= low < high && seen == closed + Range(low, high)) &&
    |closed| == covered && forall t :: t in closed ==> t < low
  }

  lemma CoveredAppend(s: seq<Interval>, x: Interval, start: int, end: int)
    requires start <= x.left && x.right <= end
    ensures Covered(s + [x], start, end) == Covered(s, start, end) + Range(x.left, x.right)
  {
    forall t ensures Covers(s + [x], t) <==> Covers(s, t) || Hits(x, t) {
      if Hits(x, t) { assert (s + [x])[|s|] == x; }
      if Covers(s, t) {
        var i :| 0 <= i < |s| && s[i].left <= t < s[i].right;
        assert (s + [x])[i] == s[i];
      }
      if Covers(s + [x], t) {
        var i :| 0 <= i < |s| + 1 && (s + [x])[i].left <= t < (s + [x])[i].right;
        assert i < |s| ==> (s + [x])[i] == s[i];
      }
    }
  }

  lemma SweepSkips(seen: set<int>, x: Interval)
    requires x.right <= x.left
    ensures seen + Range(x.left, x.right) == seen
  {}

  lemma SweepOpens(seen: set<int>, closed: set<int>, covered: int, x: Interval)
    requires Swept(seen, closed, covered, 0, 0) && 0 <= x.left < x.right
    ensures Swept(seen + Range(x.left, x.right), closed, covered, x.left, x.right)
  {}

  lemma SweepExtends(seen: set<int>, closed: set<int>, covered: int, low: int, high: int, x: Interval)
    requires high != 0 && Swept(seen, closed, covered, low, high) && low <= x.left <= high && x.left < x.right
    ensures Swept(seen + Range(x.left, x.right), closed, covered, low, if high < x.right then x.right else high)
  {
    var top := if high < x.right then x.right else high;
    assert Range(low, high) + Range(x.left, x.right) == Range(low, top);
  }

  lemma SweepCloses(seen: set<int>, closed: set<int>, covered: int, low: int, high: int, x: Interval)
    requires high != 0 && Swept(seen, closed, covered, low, high) && high < x.left < x.right
    ensures Swept(seen + Range(x.left, x.right), closed + Range(low, high), covered + high - low, x.left, x.right)
  {
    RangeSize(low, high);
    assert closed !! Range(low, high);
  }

  lemma SweepEnds(seen: set<int>, closed: set<int>, covered: int, low: int, high: int)
    requires Swept(seen, closed, covered, low, high)
    ensures |seen| == if high == 0 then covered else covered + high - low
  {
    if high != 0 {
      RangeSize(low, high);
      assert closed !! Range(low, high);
    }
  }

  /** The number of instants in the range covered by at least one break, for any order and overlaps. */
  method CoveredBreakTime(breaks: seq<Interval>, start: int, end: int) returns (covered: int)
    requires forall i :: 0 <= i < |breaks| ==> 0 <= breaks[i].left < breaks[i].right
    ensures covered == |Covered(breaks, start, end)|
  {
    hide Swept, Covered, Range, Sorted, Clipped, Covers, Ordered;
    var clipped := Sorted(Clipped(breaks, start, end));
    ghost var closed: set<int> := {};
    covered := 0;
    var low, high := 0, 0;
    SweepStarts(start, end);
    forall i | 0 <= i < |clipped| ensures Within(clipped[i], start, end) {
      SortedMembers(Clipped(breaks, start, end), clipped[i]);
      ClippedWithin(breaks, start, end, clipped[i]);
    }
    for i := 0 to |clipped|
      invariant Swept(Covered(clipped[..i], start, end), closed, covered, low, high)
      invariant high != 0 ==> exists j :: 0 <= j < i && clipped[j].left == low
      invariant high == 0 ==> low == 0
    {
      var x := clipped[i];
      assert clipped[..i + 1] == clipped[..i] + [x];
      CoveredAppend(clipped[..i], x, start, end);
      ghost var seen := Covered(clipped[..i], start, end);
      if x.right <= x.left {
        SweepSkips(seen, x);
      } else if high == 0 {
        SweepOpens(seen, closed, covered, x);
        low, high := x.left, x.right;
      } else {
        assert low <= x.left by { LowIsEarlier(breaks, start, end, clipped, i, low); }
        if x.left <= high {
          SweepExtends(seen, closed, covered, low, high, x);
          high := if high < x.right then x.right else high;
        } else {
          SweepCloses(seen, closed, covered, low, high, x);
          closed := closed + Range(low, high);
          covered := covered + high - low;
          low, high := x.left, x.right;
        }
      }
    }
    assert clipped[..|clipped|] == clipped;
    SweepEnds(Covered(clipped, start, end), closed, covered, low, high);
    if high != 0 { covered := covered + high - low; }
    SweepMeasures(breaks, start, end);
  }

  lemma SweepStarts(start: int, end: int)
    ensures Swept(Covered([], start, end), {}, 0, 0, 0)
  {}

  lemma LowIsEarlier(breaks: seq<Interval>, start: int, end: int, clipped: seq<Interval>, i: nat, low: int)
    requires clipped == Sorted(Clipped(breaks, start, end)) && i < |clipped|
    requires exists j :: 0 <= j < i && clipped[j].left == low
    ensures low <= clipped[i].left
  {
    hide Sorted, Clipped;
    SortedOrdered(Clipped(breaks, start, end));
  }

  /** Clipping and sorting change nothing inside the range. */
  lemma SweepMeasures(breaks: seq<Interval>, start: int, end: int)
    ensures Covered(Sorted(Clipped(breaks, start, end)), start, end) == Covered(breaks, start, end)
  {
    hide Sorted, Clipped, Covers;
    forall t | start <= t < end ensures Covers(Sorted(Clipped(breaks, start, end)), t) <==> Covers(breaks, t) {
      SortedCovers(Clipped(breaks, start, end), t);
      ClippedCovers(breaks, start, end, t);
    }
  }

  // ---------------------------------------------------------------- drain length

  /** Breaks never cover more than the playable range, so the drain length needs no clamp at zero. */
  lemma DrainIsNotNegative(breaks: seq<Interval>, first: int, last: int)
    requires first <= last
    ensures |Covered(breaks, first, last)| <= last - first
  {
    RangeSize(first, last);
    SubsetIsSmaller(Covered(breaks, first, last), Range(first, last));
  }

  lemma SubsetIsSmaller(a: set<int>, b: set<int>)
    requires a <= b
    ensures |a| <= |b|
  {
    assert b == a + (b - a);
  }

  /** The first and last hit object and the drain length between them; None when there are no hit objects. */
  method Measure(objects: seq<int>, breaks: seq<Interval>) returns (result: Option<(int, int, int)>)
    requires forall i :: 0 <= i < |objects| ==> 0 <= objects[i]
    requires forall i :: 0 <= i < |breaks| ==> 0 <= breaks[i].left < breaks[i].right
    ensures result.None? <==> objects == []
    ensures result.Some? ==>
      var (first, last, drain) := result.value;
      first in objects && last in objects && (forall t :: t in objects ==> first <= t <= last) &&
      drain == |Range(first, last) - Covered(breaks, first, last)|
  {
    hide Covered, Range;
    if objects == [] { return None; }
    var first, last := objects[0], objects[0];
    for i := 0 to |objects|
      invariant first in objects && last in objects && first <= last
      invariant forall j :: 0 <= j < i ==> first <= objects[j] <= last
    {
      if objects[i] < first { first := objects[i]; }
      if objects[i] > last { last := objects[i]; }
    }
    var breakLength := CoveredBreakTime(breaks, first, last);
    DrainIsNotNegative(breaks, first, last);
    var drain := if last - first - breakLength < 0 then 0 else last - first - breakLength;
    DrainIsUncovered(breaks, first, last);
    result := Some((first, last, drain));
  }

  /** The drain length counts the instants outside every break. */
  lemma DrainIsUncovered(breaks: seq<Interval>, first: int, last: int)
    requires first <= last
    ensures |Range(first, last) - Covered(breaks, first, last)| == last - first - |Covered(breaks, first, last)|
  {
    RangeSize(first, last);
    var all, covered := Range(first, last), Covered(breaks, first, last);
    assert all == (all - covered) + covered;
  }

  /** Any reordering of the breaks covers the same time. */
  lemma OrderDoesNotMatter(a: seq<Interval>, b: seq<Interval>, start: int, end: int)
    requires forall x :: x in a <==> x in b
    ensures Covered(a, start, end) == Covered(b, start, end)
  {
    hide Covers, Hits;
    forall t ensures Covers(a, t) <==> Covers(b, t) {
      CoversByMember(a, t);
      CoversByMember(b, t);
    }
  }
}
