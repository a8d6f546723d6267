/**
 * Ranked performance: the best score per beatmap by the policy's metric, weighted by powers of 0.95 in descending order
 * of pp.
 */
module WeightedPerformance {
  import opened Basics

  /** A score without a calculation of the policy's release has no pp. */
  datatype Score = Score(id: nat, beatmap: nat, total: nat, classic: nat, pp: Option<real>)

  datatype Metric = TotalScore | ClassicScore | Performance

  function Pp(s: Score): real { if s.pp.Some? then s.pp.value else 0.0 }

  // ---------------------------------------------------------------- the query

  function Value(metric: Metric, s: Score): Option<real> {
    match metric
    case TotalScore => Some(s.total as real)
    case ClassicScore => Some(s.classic as real)
    case Performance => s.pp
  }

  /** Descending order puts missing values first. */
  predicate Exceeds(a: Option<real>, b: Option<real>) { b.Some? && (a.None? || a.value > b.value) }

  /** The order of the metric: greater values first, then the smaller id. */
  predicate Beats(metric: Metric, a: Score, b: Score) {
    Exceeds(Value(metric, a), Value(metric, b)) || (Value(metric, a) == Value(metric, b) && a.id < b.id)
  }

  ghost predicate DistinctIds(scores: set<Score>) {
    forall a, b :: a in scores && b in scores && a.id == b.id ==> a == b
  }

  /** The scores that come first among those of their beatmap. */
  ghost function Bests(metric: Metric, scores: set<Score>): set<Score> {
    set s | s in scores && forall t :: t in scores && t.beatmap == s.beatmap ==> !Beats(metric, t, s)
  }

  /** Only bests with pp are weighted. */
  ghost function Rated(metric: Metric, scores: set<Score>): set<Score> {
    set s | s in Bests(metric, scores) && s.pp.Some?
  }

  lemma {:induction false} TopOf(metric: Metric, scores: set<Score>) returns (top: Score)
    requires scores != {} && DistinctIds(scores)
    ensures top in scores && forall s :: s in scores && s != top ==> Beats(metric, top, s)
    decreases |scores|
  {
    top :| top in scores;
    var rest := scores - {top};
    if rest != {} {
      var other := TopOf(metric, rest);
      assert scores == rest + {top};
      if Beats(metric, other, top) { top := other; }
    }
  }

  ghost predicate IsTop(scores: set<Score>, top: Score) {
    top in scores && forall s :: s in scores && s != top ==> Beats(Performance, top, s)
  }

  /** The scores in descending order of pp, then of ascending id. */
  ghost function Ranked(scores: set<Score>): seq<Score>
    requires DistinctIds(scores)
    decreases |scores|
  {
    if scores == {} then []
    else
      assert exists top :: IsTop(scores, top) by { var t := TopOf(Performance, scores); assert IsTop(scores, t); }
      var top :| IsTop(scores, top);
      [top] + Ranked(scores - {top})
  }

  function Power(n: nat): real { if n == 0 then 1.0 else 0.95 * Power(n - 1) }

  /** The sum of pp times 0.95 to the power of its index, from an index on. */
  function SumFrom(order: seq<Score>, index: nat): real {
    if order == [] then 0.0 else Pp(order[0]) * Power(index) + SumFrom(order[1..], index + 1)
  }

  ghost function PerformanceOf(metric: Metric, scores: set<Score>): real
    requires DistinctIds(scores)
  {
    SumFrom(Ranked(Rated(metric, scores)), 0)
  }

  // ---------------------------------------------------------------- weighting

  /** The same sum, one factor at a time. */
  function Weighted(order: seq<Score>): real {
    if order == [] then 0.0 else Pp(order[0]) + 0.95 * Weighted(order[1..])
  }

  lemma {:induction false} SumIsWeighted(order: seq<Score>, index: nat)
    ensures SumFrom(order, index) == Power(index) * Weighted(order)
  {
    if order != [] {
      SumIsWeighted(order[1..], index + 1);
      Distribute(Power(index), Pp(order[0]), Weighted(order[1..]));
    }
  }

  lemma Distribute(p: real, a: real, w: real)
    ensures p * (a + 0.95 * w) == a * p + (0.95 * p) * w
  {}

  /** Moving a score in front of scores that are no greater loses nothing. */
  lemma {:induction false} MoveToFront(a: seq<Score>, m: Score, b: seq<Score>)
    requires forall i :: 0 <= i < |a| ==> Pp(a[i]) <= Pp(m)
    ensures Weighted(a + [m] + b) <= Weighted([m] + (a + b))
  {
    if a == [] {
      assert a + [m] + b == [m] + (a + b);
    } else {
      var x, rest := a[0], a[1..];
      MoveToFront(rest, m, b);
      WeightedCons(x, rest + [m] + b);
      assert a + [m] + b == [x] + (rest + [m] + b);
      WeightedCons(m, rest + b);
      WeightedCons(m, a + b);
      WeightedCons(x, rest + b);
      assert a + b == [x] + (rest + b);
    }
  }

  lemma WeightedCons(x: Score, s: seq<Score>)
    ensures Weighted([x] + s) == Pp(x) + 0.95 * Weighted(s)
  {
    assert ([x] + s)[1..] == s;
  }

  ghost predicate Descending(order: seq<Score>) {
    forall i, j :: 0 <= i < j < |order| ==> Pp(order[i]) >= Pp(order[j])
  }

  /** Among all orders of the same scores, a descending one weighs most. */
  lemma {:induction false} DescendingIsMaximal(best: seq<Score>, order: seq<Score>)
    requires Descending(best) && multiset(order) == multiset(best)
    ensures Weighted(order) <= Weighted(best)
    decreases |best|
  {
    hide Weighted;
    if best == [] {
      assert |order| == |multiset(order)| == 0;
    } else {
      var m := best[0];
      assert m in multiset(order);
      var k :| 0 <= k < |order| && order[k] == m;
      var a, b := order[..k], order[k + 1..];
      assert order == a + [m] + b;
      assert best == [m] + best[1..];
      WithoutOne(a, m, b, best[1..]);
      forall i | 0 <= i < |a| ensures Pp(a[i]) <= Pp(m) { FirstIsGreatest(best, order, i); }
      MoveToFront(a, m, b);
      WeightedCons(m, a + b);
      WeightedCons(m, best[1..]);
      DescendingIsMaximal(best[1..], a + b);
    }
  }

  lemma WithoutOne(a: seq<Score>, m: Score, b: seq<Score>, rest: seq<Score>)
    requires multiset(a + [m] + b) == multiset([m] + rest)
    ensures multiset(a + b) == multiset(rest)
  {
    assert multiset(a + [m] + b) == multiset(a + b) + multiset{m};
    assert multiset([m] + rest) == multiset(rest) + multiset{m};
    assert multiset(a + b) == multiset(a + [m] + b) - multiset{m};
  }

  lemma FirstIsGreatest(best: seq<Score>, order: seq<Score>, i: nat)
    requires Descending(best) && best != [] && multiset(order) == multiset(best) && i < |order|
    ensures Pp(order[i]) <= Pp(best[0])
  {
    assert order[i] in multiset(best);
    var j :| 0 <= j < |best| && best[j] == order[i];
  }

  lemma {:induction false} WeightedBound(order: seq<Score>, top: real)
    requires 0.0 <= top && forall i :: 0 <= i < |order| ==> Pp(order[i]) <= top
    ensures Weighted(order) <= 20.0 * top
  {
    if order != [] { WeightedBound(order[1..], top); }
  }

  lemma {:induction false} WeightedMonotone(a: seq<Score>, b: seq<Score>)
    requires |a| <= |b| && (forall i :: 0 <= i < |a| ==> Pp(a[i]) <= Pp(b[i])) &&
      forall i :: |a| <= i < |b| ==> Pp(b[i]) >= 0.0
    ensures Weighted(a) <= Weighted(b)
    decreases |b|
  {
    if b != [] {
      if a == [] {
        WeightedMonotone(a, b[1..]);
      } else {
        WeightedMonotone(a[1..], b[1..]);
      }
    }
  }

  // ---------------------------------------------------------------- ranking

  lemma RankedHead(scores: set<Score>) returns (top: Score)
    requires DistinctIds(scores) && scores != {}
    ensures IsTop(scores, top) && Ranked(scores) == [top] + Ranked(scores - {top})
  {
    top := Ranked(scores)[0];
  }

  ghost predicate AllRated(scores: set<Score>) { forall s :: s in scores ==> s.pp.Some? }

  lemma {:induction false} RankedLists(scores: set<Score>)
    requires DistinctIds(scores) && AllRated(scores)
    ensures multiset(Ranked(scores)) == multiset(scores) && Descending(Ranked(scores))
    decreases |scores|
  {
    if scores == {} {
      assert Ranked(scores) == [];
    } else {
      hide Ranked, Descending, DistinctIds, IsTop;
      DistinctSubset(scores);
      var top := RankedHead(scores);
      TopIsIn(scores, top);
      RankedLists(scores - {top});
      AddTop(scores, top, Ranked(scores - {top}));
      DescendingCons(scores, top, Ranked(scores - {top}));
    }
  }

  lemma TopIsIn(scores: set<Score>, top: Score)
    requires IsTop(scores, top)
    ensures top in scores
  {}

  lemma DistinctSubset(scores: set<Score>)
    requires DistinctIds(scores)
    ensures forall s :: DistinctIds(scores - {s})
  {}

  lemma DescendingCons(scores: set<Score>, top: Score, rest: seq<Score>)
    requires Descending(rest) && multiset(rest) == multiset(scores - {top}) && IsTop(scores, top) && AllRated(scores)
    ensures Descending([top] + rest)
  {
    forall j | 0 <= j < |rest| ensures Pp(top) >= Pp(rest[j]) {
      assert rest[j] in multiset(rest);
      assert rest[j] in scores - {top};
    }
  }

  lemma AddTop(scores: set<Score>, top: Score, rest: seq<Score>)
    requires top in scores && multiset(rest) == multiset(scores - {top})
    ensures multiset([top] + rest) == multiset(scores)
  {
    assert multiset([top] + rest) == multiset{top} + multiset(rest);
  }

  lemma RatedAreDistinct(metric: Metric, scores: set<Score>)
    requires DistinctIds(scores)
    ensures DistinctIds(Rated(metric, scores)) && AllRated(Rated(metric, scores))
  {}

  /** Every played beatmap has exactly one best score, first by the metric and then by the smaller id. */
  lemma OneBestPerBeatmap(metric: Metric, scores: set<Score>, s: Score) returns (best: Score)
    requires DistinctIds(scores) && s in scores
    ensures best in Bests(metric, scores) && best.beatmap == s.beatmap && (best == s || Beats(metric, best, s))
    ensures forall other :: other in Bests(metric, scores) && other.beatmap == s.beatmap ==> other == best
  {
    hide Beats;
    var rivals := set t | t in scores && t.beatmap == s.beatmap;
    assert s in rivals;
    best := TopOf(metric, rivals);
    forall t | t in scores && t.beatmap == best.beatmap ensures !Beats(metric, t, best) {
      assert t in rivals;
      BeatsOneWay(metric, best, t);
    }
    forall other | other in Bests(metric, scores) && other.beatmap == s.beatmap ensures other == best {
      assert other in rivals;
    }
  }

  /** The best has the greatest total, classic score or pp of its beatmap, by the metric, and then the smallest id. */
  lemma BestHasTheMost(metric: Metric, scores: set<Score>, best: Score, s: Score)
    requires best in Bests(metric, scores) && s in scores && s.beatmap == best.beatmap
    ensures metric == TotalScore ==> s.total < best.total || (s.total == best.total && best.id <= s.id)
    ensures metric == ClassicScore ==> s.classic < best.classic || (s.classic == best.classic && best.id <= s.id)
    ensures metric == Performance && best.pp.Some? ==>
      s.pp.Some? && (s.pp.value < best.pp.value || (s.pp.value == best.pp.value && best.id <= s.id))
    ensures metric == Performance && best.pp.None? && s.pp.None? ==> best.id <= s.id
  {
    assert !Beats(metric, s, best);
  }

  lemma BeatsOneWay(metric: Metric, a: Score, b: Score)
    ensures !(Beats(metric, a, b) && Beats(metric, b, a)) && !Beats(metric, a, a)
  {}

  // ---------------------------------------------------------------- theorems

  lemma PerformanceIsWeighted(metric: Metric, scores: set<Score>)
    requires DistinctIds(scores)
    ensures DistinctIds(Rated(metric, scores)) &&
      PerformanceOf(metric, scores) == Weighted(Ranked(Rated(metric, scores)))
  {
    hide Bests;
    RatedAreDistinct(metric, scores);
    SumIsWeighted(Ranked(Rated(metric, scores)), 0);
  }

  /** The score with the most pp counts in full, and all the others count 0.95 of what they would without it. */
  lemma TopCountsInFull(scores: set<Score>) returns (top: Score)
    requires DistinctIds(scores) && AllRated(scores) && scores != {}
    ensures top in scores && forall s :: s in scores ==> Pp(s) <= Pp(top)
    ensures DistinctIds(scores - {top}) && Best(scores) == Pp(top) + 0.95 * Best(scores - {top}) && Best({}) == 0.0
  {
    hide Weighted;
    top := RankedHead(scores);
    WeightedCons(top, Ranked(scores - {top}));
    NothingWeighs();
  }

  lemma NothingWeighs()
    ensures Best({}) == 0.0
  {}

  /** The performance is the weighted sum of the rated bests. */
  lemma PerformanceIsBest(metric: Metric, scores: set<Score>)
    requires DistinctIds(scores)
    ensures DistinctIds(Rated(metric, scores)) && PerformanceOf(metric, scores) == Best(Rated(metric, scores))
  {
    hide Ranked, Weighted, PerformanceOf;
    PerformanceIsWeighted(metric, scores);
  }

  /** Under every metric, the performance is the greatest weighted sum over all orders of the rated bests. */
  lemma PerformanceIsMaximal(metric: Metric, scores: set<Score>, order: seq<Score>)
    requires DistinctIds(scores) && multiset(order) == multiset(Rated(metric, scores))
    ensures SumFrom(order, 0) <= PerformanceOf(metric, scores)
  {
    hide Rated, Ranked, SumFrom, Weighted, PerformanceOf;
    PerformanceIsWeighted(metric, scores);
    RatedAreDistinct(metric, scores);
    assert Power(0) == 1.0;
    SumIsWeighted(order, 0);
    RankedLists(Rated(metric, scores));
    DescendingIsMaximal(Ranked(Rated(metric, scores)), order);
  }

  /** Under every metric, it is at most twenty times the top pp. */
  lemma PerformanceIsBounded(metric: Metric, scores: set<Score>, top: real)
    requires DistinctIds(scores) && 0.0 <= top && forall s :: s in scores ==> Pp(s) <= top
    ensures PerformanceOf(metric, scores) <= 20.0 * top
  {
    hide Ranked, SumFrom, Weighted, PerformanceOf;
    PerformanceIsWeighted(metric, scores);
    RatedAreDistinct(metric, scores);
    var order := Ranked(Rated(metric, scores));
    RankedLists(Rated(metric, scores));
    forall i | 0 <= i < |order| ensures Pp(order[i]) <= top { assert order[i] in multiset(order); }
    WeightedBound(order, top);
  }

  // ---------------------------------------------------------------- one more score

  /** The bests that a new score would replace: at most the one of its beatmap. */
  ghost function Replaced(metric: Metric, scores: set<Score>, x: Score): set<Score> {
    set y | y in Bests(metric, scores) && y.beatmap == x.beatmap && Beats(metric, x, y)
  }

  /** The new score becomes the best of its beatmap. */
  ghost predicate Leads(metric: Metric, scores: set<Score>, x: Score) {
    forall y :: y in scores && y.beatmap == x.beatmap ==> Beats(metric, x, y)
  }

  lemma BestsAfter(metric: Metric, scores: set<Score>, x: Score)
    requires DistinctIds(scores + {x}) && x !in scores
    ensures Bests(metric, scores + {x}) ==
      if Leads(metric, scores, x) then Bests(metric, scores) - Replaced(metric, scores, x) + {x}
      else Bests(metric, scores)
    ensures !Leads(metric, scores, x) ==> Replaced(metric, scores, x) == {}
  {
    hide Beats;
    var before, after := Bests(metric, scores), Bests(metric, scores + {x});
    forall z ensures z in after <==>
      if Leads(metric, scores, x) then z in before - Replaced(metric, scores, x) + {x} else z in before
    {
      BestAfter(metric, scores, x, z);
    }
    if !Leads(metric, scores, x) {
      forall y | y in before && y.beatmap == x.beatmap ensures !Beats(metric, x, y) {
        OldBestStays(metric, scores, x, y);
      }
    }
  }

  lemma OldBestStays(metric: Metric, scores: set<Score>, x: Score, y: Score)
    requires DistinctIds(scores + {x}) && x !in scores && y in Bests(metric, scores) && y.beatmap == x.beatmap
    ensures Leads(metric, scores, x) <==> Beats(metric, x, y)
  {
    hide Beats;
    if Beats(metric, x, y) {
      forall z | z in scores && z.beatmap == x.beatmap ensures Beats(metric, x, z) {
        assert !Beats(metric, z, y);
        Between(metric, x, y, z);
      }
    }
  }

  lemma Between(metric: Metric, x: Score, y: Score, z: Score)
    requires Beats(metric, x, y) && !Beats(metric, z, y) && x.id != z.id
    ensures Beats(metric, x, z)
  {}

  lemma OneBeats(metric: Metric, a: Score, b: Score)
    requires a.id != b.id
    ensures Beats(metric, a, b) <==> !Beats(metric, b, a)
  {}

  lemma BestAfter(metric: Metric, scores: set<Score>, x: Score, z: Score)
    requires DistinctIds(scores + {x}) && x !in scores
    ensures z in Bests(metric, scores + {x}) <==>
      if Leads(metric, scores, x) then (z in Bests(metric, scores) && z !in Replaced(metric, scores, x)) || z == x
      else z in Bests(metric, scores)
  {
    hide Beats;
    BeatsOneWay(metric, x, x);
    forall y | y in scores ensures Beats(metric, x, y) <==> !Beats(metric, y, x) { OneBeats(metric, x, y); }
    if z in Bests(metric, scores) && z.beatmap == x.beatmap { OldBestStays(metric, scores, x, z); }
  }

  ghost predicate Nonnegative(scores: set<Score>) { forall s :: s in scores ==> Pp(s) >= 0.0 }

  lemma RatedAfter(metric: Metric, scores: set<Score>, x: Score)
    requires DistinctIds(scores + {x}) && x !in scores
    ensures var before, gone := Rated(metric, scores), Replaced(metric, scores, x);
      Rated(metric, scores + {x}) == if Leads(metric, scores, x) then before - gone + RatedOnly(x) else before
    ensures x !in Rated(metric, scores)
    ensures !Leads(metric, scores, x) ==> Replaced(metric, scores, x) == {}
  {
    hide Beats, Leads;
    BestsAfter(metric, scores, x);
  }

  function RatedOnly(x: Score): set<Score> { if x.pp.Some? then {x} else {} }

  lemma ReplacedIsOne(metric: Metric, scores: set<Score>, x: Score, y: Score)
    requires DistinctIds(scores) && y in Replaced(metric, scores, x)
    ensures Replaced(metric, scores, x) == {y}
  {
    hide Beats;
    forall z | z in Replaced(metric, scores, x) ensures z == y {
      var best := OneBestPerBeatmap(metric, scores, y);
    }
  }

  /** Putting a score in place of another moves the weighted sum the way the pp moves. */
  lemma {:induction false} WeightedSwap(order: seq<Score>, k: nat, x: Score)
    requires k < |order|
    ensures Pp(x) < Pp(order[k]) ==> Weighted(order[k := x]) < Weighted(order)
    ensures Pp(x) >= Pp(order[k]) ==> Weighted(order[k := x]) >= Weighted(order)
  {
    if k > 0 {
      WeightedSwap(order[1..], k - 1, x);
      assert order[k := x][1..] == order[1..][k - 1 := x];
    } else {
      assert order[k := x][1..] == order[1..];
    }
  }

  lemma {:induction false} WeightedAppend(order: seq<Score>, x: Score)
    ensures Pp(x) == 0.0 ==> Weighted(order + [x]) == Weighted(order)
    ensures Pp(x) > 0.0 ==> Weighted(order + [x]) > Weighted(order)
  {
    if order == [] {
      assert order + [x] == [x] && [x][1..] == [];
      assert Weighted([]) == 0.0;
    } else {
      WeightedAppend(order[1..], x);
      assert (order + [x])[1..] == order[1..] + [x];
    }
  }

  ghost function Best(scores: set<Score>): real
    requires DistinctIds(scores)
  {
    Weighted(Ranked(scores))
  }

  lemma {:induction false} DropZero(a: seq<Score>, y: Score, b: seq<Score>)
    requires Pp(y) == 0.0 && Weighted(b) >= 0.0
    ensures Weighted(a + [y] + b) <= Weighted(a + b)
  {
    if a == [] {
      assert a + [y] + b == [y] + b && a + b == b;
      WeightedCons(y, b);
    } else {
      DropZero(a[1..], y, b);
      assert (a + [y] + b)[1..] == a[1..] + [y] + b && (a + b)[1..] == a[1..] + b;
    }
  }

  lemma WeightedNonnegative(order: seq<Score>)
    requires forall i :: 0 <= i < |order| ==> Pp(order[i]) >= 0.0
    ensures Weighted(order) >= 0.0
  {
    assert Weighted([]) == 0.0;
    WeightedMonotone([], order);
  }

  /** Adding a rated score raises the sum exactly when it has any pp, and never lowers it. */
  lemma AddingRaises(scores: set<Score>, x: Score)
    requires DistinctIds(scores) && DistinctIds(scores + {x}) && x !in scores
    requires AllRated(scores + {x}) && Nonnegative(scores + {x})
    ensures Best(scores) <= Best(scores + {x}) && (Best(scores) < Best(scores + {x}) <==> Pp(x) > 0.0)
  {
    hide Ranked, Weighted, DistinctIds;
    assert AllRated(scores);
    RankedLists(scores);
    RankedLists(scores + {x});
    var order, longer := Ranked(scores), Ranked(scores + {x});
    assert multiset(scores + {x}) == multiset(scores) + multiset{x};
    WeightedAppend(order, x);
    DescendingIsMaximal(longer, order + [x]);
    assert Pp(x) >= 0.0;
    if Pp(x) == 0.0 { AddingNothing(scores, x, order, longer); }
  }

  lemma AddingNothing(scores: set<Score>, x: Score, order: seq<Score>, longer: seq<Score>)
    requires x !in scores && Pp(x) == 0.0 && Nonnegative(scores + {x})
    requires Descending(order) && multiset(order) == multiset(scores)
    requires multiset(longer) == multiset(scores) + multiset{x} && multiset(longer) == multiset(scores + {x})
    ensures Weighted(longer) <= Weighted(order)
  {
    hide Weighted;
    assert x in multiset(longer);
    var k :| 0 <= k < |longer| && longer[k] == x;
    var a, b := longer[..k], longer[k + 1..];
    assert longer == a + [x] + b;
    assert multiset([x] + order) == multiset{x} + multiset(order);
    WithoutOne(a, x, b, order);
    forall i | 0 <= i < |b| ensures Pp(b[i]) >= 0.0 {
      assert longer[k + 1 + i] in multiset(longer);
    }
    WeightedNonnegative(b);
    DropZero(a, x, b);
    DescendingIsMaximal(order, a + b);
  }

  /** Replacing one rated score by another lowers the sum exactly when it lowers the pp. */
  lemma ReplacingMoves(scores: set<Score>, x: Score, y: Score)
    requires DistinctIds(scores) && DistinctIds(scores - {y} + {x}) && x !in scores && y in scores
    requires AllRated(scores + {x})
    ensures Best(scores) <= Best(scores - {y} + {x}) <==> Pp(y) <= Pp(x)
  {
    hide Ranked, Weighted, DistinctIds;
    var after := scores - {y} + {x};
    assert AllRated(scores) && AllRated(after);
    RankedLists(scores);
    RankedLists(after);
    if Pp(y) <= Pp(x) {
      SwapIsNoBetter(scores, after, Ranked(scores), Ranked(after), y, x);
    } else {
      assert after - {x} + {y} == scores;
      SwapIsNoBetter(after, scores, Ranked(after), Ranked(scores), x, y);
    }
  }

  lemma SwapIsNoBetter(from: set<Score>, to: set<Score>, order: seq<Score>, best: seq<Score>, y: Score, x: Score)
    requires y in from && x !in from && to == from - {y} + {x} && Pp(y) <= Pp(x)
    requires multiset(order) == multiset(from) && multiset(best) == multiset(to) && Descending(best)
    ensures Weighted(order) <= Weighted(best) && (Pp(y) < Pp(x) ==> Weighted(order) < Weighted(best))
  {
    hide Weighted;
    assert y in multiset(order);
    var k :| 0 <= k < |order| && order[k] == y;
    var other := order[k := x];
    assert multiset(other) == multiset(to);
    WeightedSwap(order, k, x);
    WeightedSwap(other, k, y);
    assert other[k := y] == order;
    DescendingIsMaximal(best, other);
  }

  /**
   * A new score lowers the performance exactly when it replaces a best of more pp: the metric picks the best, but pp is
   * what is summed.
   */
  lemma PerformanceDropsExactly(metric: Metric, scores: set<Score>, x: Score)
    requires DistinctIds(scores + {x}) && x !in scores && Nonnegative(scores + {x})
    ensures DistinctIds(scores)
    ensures PerformanceOf(metric, scores) <= PerformanceOf(metric, scores + {x}) <==>
      forall y :: y in Bests(metric, scores) && y.beatmap == x.beatmap && Beats(metric, x, y) ==> Pp(y) <= Pp(x)
  {
    hide Bests, Ranked, Weighted, PerformanceOf, Beats, Leads;
    PerformanceIsWeighted(metric, scores);
    PerformanceIsWeighted(metric, scores + {x});
    RatedAfter(metric, scores, x);
    RatedAreDistinct(metric, scores);
    RatedAreDistinct(metric, scores + {x});
    BestsAreScores(metric, scores);
    var before, after, gone := Rated(metric, scores), Rated(metric, scores + {x}), Replaced(metric, scores, x);
    assert forall z :: z in Bests(metric, scores) && z.beatmap == x.beatmap && Beats(metric, x, z) ==> z in gone;
    if y :| y in gone {
      ReplacedIsOne(metric, scores, x, y);
      PerformanceReplaces(before, after, x, y);
    } else {
      assert gone == {};
      if Leads(metric, scores, x) && x.pp.Some? {
        assert after == before + {x};
        AddingRaises(before, x);
      } else {
        assert after == before;
      }
    }
  }

  lemma BestsAreScores(metric: Metric, scores: set<Score>)
    ensures Bests(metric, scores) <= scores
  {}

  lemma PerformanceReplaces(before: set<Score>, after: set<Score>, x: Score, y: Score)
    requires DistinctIds(before) && DistinctIds(after) && AllRated(before) && AllRated(after)
    requires x !in before && after == before - {y} + RatedOnly(x) && (y in before <==> y.pp.Some?)
    requires Nonnegative(before + {x, y})
    ensures Best(before) <= Best(after) <==> Pp(y) <= Pp(x)
  {
    hide Ranked, Weighted, DistinctIds, Best;
    if x.pp.Some? && y.pp.Some? {
      ReplacingMoves(before, x, y);
    } else if x.pp.Some? {
      assert after == before + {x};
      AddingRaises(before, x);
    } else if y.pp.Some? {
      assert before == after + {y};
      AddingRaises(after, y);
    } else {
      assert after == before;
    }
  }

  /** Under a pp policy a rated score never lowers the performance. */
  lemma PerformanceNeverDrops(scores: set<Score>, x: Score)
    requires DistinctIds(scores + {x}) && x !in scores && Nonnegative(scores + {x}) && x.pp.Some?
    ensures DistinctIds(scores) && PerformanceOf(Performance, scores) <= PerformanceOf(Performance, scores + {x})
  {
    hide Bests, PerformanceOf;
    PerformanceDropsExactly(Performance, scores, x);
  }

  /** Under a score policy a new best of less pp lowers it. */
  lemma ScorePolicyDrops()
    ensures var first, second := Score(1, 7, 5, 5, Some(100.0)), Score(2, 7, 6, 6, Some(10.0));
      DistinctIds({first, second}) && DistinctIds({first}) &&
      PerformanceOf(TotalScore, {first, second}) < PerformanceOf(TotalScore, {first}) &&
      PerformanceOf(ClassicScore, {first, second}) < PerformanceOf(ClassicScore, {first})
  {
    hide PerformanceOf;
    var first, second := Score(1, 7, 5, 5, Some(100.0)), Score(2, 7, 6, 6, Some(10.0));
    assert {first} + {second} == {first, second};
    forall metric: Metric | metric != Performance
      ensures PerformanceOf(metric, {first, second}) < PerformanceOf(metric, {first})
    {
      PerformanceDropsExactly(metric, {first}, second);
      assert first in Bests(metric, {first}) && Beats(metric, second, first);
    }
  }
}
