/** Over any run with redelivery, each event counts at most once and all totals agree with one another. */
module ScoringConservation {
  import opened Basics
  import opened MapTotals
  import opened ScoringStats

  // ---------------------------------------------------------------- selections

  function MonthsOf(u: User): Month -> bool { (k: Month) => k.user == u }

  function PlaysBy(u: User): Play -> bool { (k: Play) => k.user == u }

  function PlaysOn(b: Map): Play -> bool { (k: Play) => k.beatmap == b.beatmap && k.user.ruleset == b.ruleset }

  function MonthPlays(): Monthly -> nat { (m: Monthly) => m.plays }

  function MonthTime(): Monthly -> nat { (m: Monthly) => m.time }

  function MonthViews(): Monthly -> nat { (m: Monthly) => m.views }

  function Attempts(): Activity -> nat { (a: Activity) => a.attempts }

  function Passes(): Activity -> nat { (a: Activity) => a.passes }

  // ---------------------------------------------------------------- balances

  /** The months of a user add up to the user's totals. */
  ghost predicate MonthsBalance(users: map<User, UserStat>, months: map<Month, Monthly>, u: User) {
    Total(months, MonthsOf(u), MonthPlays()) == UserOf(users, u).plays &&
    Total(months, MonthsOf(u), MonthTime()) == UserOf(users, u).time &&
    Total(months, MonthsOf(u), MonthViews()) == UserOf(users, u).views
  }

  /** The beatmaps of a user add up to the user's play count. */
  ghost predicate UserBalance(users: map<User, UserStat>, plays: map<Play, Activity>, u: User) {
    Total(plays, PlaysBy(u), Attempts()) == UserOf(users, u).plays
  }

  /** The users of a beatmap add up to the beatmap's activity. */
  ghost predicate MapBalance(maps: map<Map, Activity>, plays: map<Play, Activity>, b: Map) {
    Total(plays, PlaysOn(b), Attempts()) == MapOf(maps, b).attempts &&
    Total(plays, PlaysOn(b), Passes()) == MapOf(maps, b).passes
  }

  /** The histogram holds every attempt that did not pass. */
  ghost predicate EndingsBalance(maps: map<Map, Activity>, histograms: map<Map, Histogram>, b: Map) {
    var h, a := HistogramOf(histograms, b), MapOf(maps, b);
    |h.failed| == BUCKETS && |h.quit| == BUCKETS && SumOf(h.failed) + SumOf(h.quit) + a.passes == a.attempts
  }

  ghost predicate Balanced(s: Stats) {
    (forall u :: MonthsBalance(s.users, s.months, u)) && (forall u :: UserBalance(s.users, s.plays, u)) &&
    (forall b :: MapBalance(s.maps, s.plays, b)) && (forall b :: EndingsBalance(s.maps, s.histograms, b))
  }

  lemma StartIsBalanced()
    ensures Balanced(NoStats())
  {
    hide Total;
    forall u ensures MonthsBalance(map[], map[], u) && UserBalance(map[], map[], u) {
      TotalEmpty(MonthsOf(u), MonthPlays());
      TotalEmpty(MonthsOf(u), MonthTime());
      TotalEmpty(MonthsOf(u), MonthViews());
      TotalEmpty(PlaysBy(u), Attempts());
    }
    forall b ensures MapBalance(map[], map[], b) && EndingsBalance(map[], map[], b) {
      TotalEmpty(PlaysOn(b), Attempts());
      TotalEmpty(PlaysOn(b), Passes());
      SumOfZeros(BUCKETS);
    }
  }

  // ---------------------------------------------------------------- one change at a time

  lemma MonthStep(months: map<Month, Monthly>, k: Month, after: Monthly, u: User)
    ensures var before := MonthOf(months, k); var next := months[k := after];
      (u != k.user ==>
        Total(next, MonthsOf(u), MonthPlays()) == Total(months, MonthsOf(u), MonthPlays()) &&
        Total(next, MonthsOf(u), MonthTime()) == Total(months, MonthsOf(u), MonthTime()) &&
        Total(next, MonthsOf(u), MonthViews()) == Total(months, MonthsOf(u), MonthViews())) &&
      (u == k.user ==>
        Total(next, MonthsOf(u), MonthPlays()) + before.plays ==
          Total(months, MonthsOf(u), MonthPlays()) + after.plays &&
        Total(next, MonthsOf(u), MonthTime()) + before.time == Total(months, MonthsOf(u), MonthTime()) + after.time &&
        Total(next, MonthsOf(u), MonthViews()) + before.views == Total(months, MonthsOf(u), MonthViews()) + after.views)
  {
    hide Total;
    TotalUpdate(months, MonthsOf(u), MonthPlays(), k, after);
    TotalUpdate(months, MonthsOf(u), MonthTime(), k, after);
    TotalUpdate(months, MonthsOf(u), MonthViews(), k, after);
  }

  lemma PlayStep(plays: map<Play, Activity>, k: Play, after: Activity, p: Play -> bool)
    ensures var before := PlayOf(plays, k); var next := plays[k := after];
      (!p(k) ==>
        Total(next, p, Attempts()) == Total(plays, p, Attempts()) &&
        Total(next, p, Passes()) == Total(plays, p, Passes())) &&
      (p(k) ==>
        Total(next, p, Attempts()) + before.attempts == Total(plays, p, Attempts()) + after.attempts &&
        Total(next, p, Passes()) + before.passes == Total(plays, p, Passes()) + after.passes)
  {
    hide Total;
    TotalUpdate(plays, p, Attempts(), k, after);
    TotalUpdate(plays, p, Passes(), k, after);
  }

  lemma ScoreKeepsMonths(s: Stats, score: Score, u: User)
    requires 0.0 <= score.progress && MonthsBalance(s.users, s.months, u)
    ensures MonthsBalance(WithScore(s, score).users, WithScore(s, score).months, u)
  {
    hide Total, PlayTime, Pass, Bucket, WithEnding, MonthsOf, MonthPlays, MonthTime, MonthViews, MonthOf;
    var k := Month(score.user, score.month);
    var before := MonthOf(s.months, k);
    MonthStep(s.months, k, Monthly(before.plays + 1, before.time + PlayTime(score), before.views), u);
  }

  lemma ScoreKeepsUser(s: Stats, score: Score, u: User)
    requires 0.0 <= score.progress && UserBalance(s.users, s.plays, u)
    ensures UserBalance(WithScore(s, score).users, WithScore(s, score).plays, u)
  {
    hide Total, PlayTime, Pass, Bucket, WithEnding, Attempts, PlayOf;
    var k := Play(score.user, score.beatmap);
    var before := PlayOf(s.plays, k);
    PlayStep(s.plays, k, Activity(before.attempts + 1, before.passes + Pass(score)), PlaysBy(u));
  }

  lemma ScoreKeepsMap(s: Stats, score: Score, b: Map)
    requires 0.0 <= score.progress && MapBalance(s.maps, s.plays, b)
    ensures MapBalance(WithScore(s, score).maps, WithScore(s, score).plays, b)
  {
    hide Total, PlayTime, Pass, Bucket, WithEnding, Attempts, Passes, PlayOf;
    var k := Play(score.user, score.beatmap);
    var before := PlayOf(s.plays, k);
    PlayStep(s.plays, k, Activity(before.attempts + 1, before.passes + Pass(score)), PlaysOn(b));
  }

  lemma ScoreKeepsEndings(s: Stats, score: Score, b: Map)
    requires 0.0 <= score.progress && EndingsBalance(s.maps, s.histograms, b)
    ensures EndingsBalance(WithScore(s, score).maps, WithScore(s, score).histograms, b)
  {
    hide PlayTime, Bucket, SumOf, Zeros;
    if b == MapKey(score) && score.outcome != Passed {
      var h, bucket := HistogramOf(s.histograms, b), Bucket(score.progress);
      SumOfUpdate(h.failed, bucket, h.failed[bucket] + 1);
      SumOfUpdate(h.quit, bucket, h.quit[bucket] + 1);
    }
  }

  lemma ScoreKeepsBalance(s: Stats, score: Score)
    requires 0.0 <= score.progress && Balanced(s)
    ensures Balanced(WithScore(s, score))
  {
    hide WithScore, MonthsBalance, UserBalance, MapBalance, EndingsBalance;
    var after := WithScore(s, score);
    forall u ensures MonthsBalance(after.users, after.months, u) { ScoreKeepsMonths(s, score, u); }
    forall u ensures UserBalance(after.users, after.plays, u) { ScoreKeepsUser(s, score, u); }
    forall b ensures MapBalance(after.maps, after.plays, b) { ScoreKeepsMap(s, score, b); }
    forall b ensures EndingsBalance(after.maps, after.histograms, b) { ScoreKeepsEndings(s, score, b); }
  }

  lemma ViewKeepsMonths(s: Stats, v: User, month: nat, u: User)
    requires MonthsBalance(s.users, s.months, u)
    ensures MonthsBalance(WithView(s, v, month).users, WithView(s, v, month).months, u)
  {
    hide Total, MonthsOf, MonthPlays, MonthTime, MonthViews, MonthOf;
    var before := MonthOf(s.months, Month(v, month));
    MonthStep(s.months, Month(v, month), before.(views := before.views + 1), u);
  }

  lemma ViewKeepsBalance(s: Stats, v: User, month: nat)
    requires Balanced(s)
    ensures Balanced(WithView(s, v, month))
  {
    hide Total, MonthsBalance, MapBalance, EndingsBalance;
    var after := WithView(s, v, month);
    forall u ensures MonthsBalance(after.users, after.months, u) { ViewKeepsMonths(s, v, month, u); }
    forall u ensures UserBalance(after.users, after.plays, u) { assert UserBalance(s.users, s.plays, u); }
  }

  lemma ConsumeKeepsBalance(scores: Scores, s: Stats, e: Event)
    requires ValidScores(scores) && Balanced(s)
    ensures Balanced(Consumed(scores, s, e).0)
  {
    hide WithScore, WithView, MonthsBalance, UserBalance, MapBalance, EndingsBalance;
    if IsNew(s, e) && Matches(scores, e) {
      if e.ScoreAccepted? { ScoreKeepsBalance(s, scores[e.score]); } else { ViewKeepsBalance(s, e.user, e.month); }
    }
  }

  // ---------------------------------------------------------------- runs

  /** Deliveries may repeat and interleave in any way. */
  function After(scores: Scores, s: Stats, deliveries: seq<Event>): Stats
    requires ValidScores(scores)
    decreases |deliveries|
  {
    if deliveries == [] then s else After(scores, Consumed(scores, s, deliveries[0]).0, deliveries[1..])
  }

  /** The deliveries that were applied, in order. */
  function AppliedIn(scores: Scores, s: Stats, deliveries: seq<Event>): seq<Event>
    requires ValidScores(scores)
    decreases |deliveries|
  {
    if deliveries == [] then []
    else
      var step := Consumed(scores, s, deliveries[0]);
      (if step.1.Applied? then [deliveries[0]] else []) + AppliedIn(scores, step.0, deliveries[1..])
  }

  lemma {:induction false} RunKeepsBalance(scores: Scores, s: Stats, deliveries: seq<Event>)
    requires ValidScores(scores) && Balanced(s)
    ensures Balanced(After(scores, s, deliveries))
    decreases |deliveries|
  {
    hide Balanced, Consumed;
    if deliveries != [] {
      ConsumeKeepsBalance(scores, s, deliveries[0]);
      RunKeepsBalance(scores, Consumed(scores, s, deliveries[0]).0, deliveries[1..]);
    }
  }

  /** Months add up to users, plays to users and to beatmaps, and endings to attempts minus passes. */
  lemma TotalsAreConserved(scores: Scores, deliveries: seq<Event>)
    requires ValidScores(scores)
    ensures Balanced(After(scores, NoStats(), deliveries))
  {
    hide Balanced, After;
    StartIsBalanced();
    RunKeepsBalance(scores, NoStats(), deliveries);
  }

  // ---------------------------------------------------------------- at most once

  /** The events of one user were applied at increasing positions, so none twice. */
  ghost predicate Increasing(log: seq<Event>) {
    forall i, j :: 0 <= i < j < |log| && log[i].user == log[j].user ==> log[i].position < log[j].position
  }

  lemma ConsumeMovesCheckpoint(scores: Scores, s: Stats, e: Event, later: Event)
    requires ValidScores(scores)
    ensures var step := Consumed(scores, s, e);
      IsNew(step.0, later) ==>
        IsNew(s, later) && (step.1.Applied? && later.user == e.user ==> e.position < later.position)
  {
    hide WithScore, WithView;
    if IsNew(s, e) && Matches(scores, e) {
      CheckpointsKept(s, scores[e.score], e);
    }
  }

  lemma CheckpointsKept(s: Stats, score: Score, e: Event)
    ensures 0.0 <= score.progress ==> WithScore(s, score).checkpoints == s.checkpoints
    ensures e.ReplayViewed? ==> WithView(s, e.user, e.month).checkpoints == s.checkpoints
  {
    hide Bucket;
  }

  // ---------------------------------------------------------------- what the counters are

  /** An accepted score, taken from its event. */
  predicate Counted(scores: Scores, e: Event, p: Score -> bool) {
    e.ScoreAccepted? && e.score in scores && p(scores[e.score])
  }

  /** The sum of a quantity over the selected scores of the accepted events. */
  function Tally(scores: Scores, log: seq<Event>, p: Score -> bool, f: Score -> nat): nat {
    if log == [] then 0
    else
      var e := log[|log| - 1];
      Tally(scores, log[..|log| - 1], p, f) + if Counted(scores, e, p) then f(scores[e.score]) else 0
  }

  /** The number of selected replay views. */
  function Views(log: seq<Event>, p: Event -> bool): nat {
    if log == [] then 0
    else Views(log[..|log| - 1], p) + if log[|log| - 1].ReplayViewed? && p(log[|log| - 1]) then 1 else 0
  }

  function Once(): Score -> nat { (score: Score) => 1 }

  /** The time between start and end, none when they are out of order. */
  function TimeOf(): Score -> nat {
    (score: Score) => if score.started <= score.ended then score.ended - score.started else 0
  }

  function TotalOf(): Score -> nat { (score: Score) => score.total }

  function HitsOf(): Score -> nat { (score: Score) => score.hits }

  function ByUser(u: User): Score -> bool { (score: Score) => score.user == u }

  function InMonth(k: Month): Score -> bool { (score: Score) => score.user == k.user && score.month == k.month }

  function OfPlay(k: Play): Score -> bool { (score: Score) => score.user == k.user && score.beatmap == k.beatmap }

  function OnMap(b: Map): Score -> bool {
    (score: Score) => score.beatmap == b.beatmap && score.user.ruleset == b.ruleset
  }

  function AndPassed(p: Score -> bool): Score -> bool { (score: Score) => p(score) && score.outcome == Passed }

  /** Scores on the beatmap that ended this way in this hundredth. */
  function EndedAt(b: Map, outcome: Outcome, i: nat): Score -> bool {
    (score: Score) =>
      score.beatmap == b.beatmap && score.user.ruleset == b.ruleset && score.outcome == outcome &&
      0.0 <= score.progress && Bucket(score.progress) == i
  }

  function ViewsOf(u: User): Event -> bool { (e: Event) => e.user == u }

  function ViewsIn(k: Month): Event -> bool { (e: Event) => e.ReplayViewed? && e.user == k.user && e.month == k.month }

  /** The greatest combo of a user's accepted events. */
  ghost predicate IsBestCombo(scores: Scores, log: seq<Event>, u: User, combo: nat) {
    (forall i :: 0 <= i < |log| && Counted(scores, log[i], ByUser(u)) ==> scores[log[i].score].combo <= combo) &&
    (combo == 0 ||
     exists i :: 0 <= i < |log| && Counted(scores, log[i], ByUser(u)) && scores[log[i].score].combo == combo)
  }

  ghost predicate UserReflects(scores: Scores, row: UserStat, log: seq<Event>, u: User) {
    row.plays == Tally(scores, log, ByUser(u), Once()) && row.time == Tally(scores, log, ByUser(u), TimeOf()) &&
    row.total == Tally(scores, log, ByUser(u), TotalOf()) && row.hits == Tally(scores, log, ByUser(u), HitsOf()) &&
    row.views == Views(log, ViewsOf(u)) && IsBestCombo(scores, log, u, row.combo)
  }

  ghost predicate MonthReflects(scores: Scores, row: Monthly, log: seq<Event>, k: Month) {
    row.plays == Tally(scores, log, InMonth(k), Once()) && row.time == Tally(scores, log, InMonth(k), TimeOf()) &&
    row.views == Views(log, ViewsIn(k))
  }

  ghost predicate ActivityReflects(scores: Scores, row: Activity, log: seq<Event>, p: Score -> bool) {
    row.attempts == Tally(scores, log, p, Once()) && row.passes == Tally(scores, log, AndPassed(p), Once())
  }

  ghost predicate CellReflects(scores: Scores, row: Histogram, log: seq<Event>, b: Map, i: nat) {
    |row.failed| == BUCKETS && |row.quit| == BUCKETS &&
    (i < BUCKETS ==>
      row.failed[i] == Tally(scores, log, EndedAt(b, Failed, i), Once()) &&
      row.quit[i] == Tally(scores, log, EndedAt(b, Abandoned, i), Once()))
  }

  ghost predicate TablesReflect(scores: Scores, s: Stats, log: seq<Event>) {
    (forall u :: UserReflects(scores, UserOf(s.users, u), log, u)) &&
    (forall k :: MonthReflects(scores, MonthOf(s.months, k), log, k)) &&
    (forall k :: ActivityReflects(scores, PlayOf(s.plays, k), log, OfPlay(k))) &&
    (forall b :: ActivityReflects(scores, MapOf(s.maps, b), log, OnMap(b))) &&
    (forall b, i :: CellReflects(scores, HistogramOf(s.histograms, b), log, b, i))
  }

  /**
   * The log holds matching events, none twice and none still new, and every row of every table is what they add up to.
   */
  ghost predicate Reflects(scores: Scores, s: Stats, log: seq<Event>) {
    Increasing(log) && (forall i :: 0 <= i < |log| ==> Matches(scores, log[i]) && !IsNew(s, log[i])) &&
    TablesReflect(scores, s, log)
  }

  lemma TallyGrows(scores: Scores, log: seq<Event>, e: Event, p: Score -> bool, f: Score -> nat)
    ensures Tally(scores, log + [e], p, f) ==
      Tally(scores, log, p, f) + if Counted(scores, e, p) then f(scores[e.score]) else 0
  {
    assert (log + [e])[..|log|] == log;
  }

  lemma ViewsGrow(log: seq<Event>, e: Event, p: Event -> bool)
    ensures Views(log + [e], p) == Views(log, p) + if e.ReplayViewed? && p(e) then 1 else 0
  {
    assert (log + [e])[..|log|] == log;
  }

  lemma BestComboGrows(scores: Scores, log: seq<Event>, e: Event, u: User, combo: nat)
    requires IsBestCombo(scores, log, u, combo)
    ensures IsBestCombo(scores, log + [e], u,
      if Counted(scores, e, ByUser(u)) then Max(combo, scores[e.score].combo) else combo)
  {
    hide ByUser;
    var longer := log + [e];
    assert longer[|log|] == e;
    if combo != 0 {
      var i :| 0 <= i < |log| && Counted(scores, log[i], ByUser(u)) && scores[log[i].score].combo == combo;
      assert longer[i] == log[i];
    }
  }

  lemma UserGrows(scores: Scores, s: Stats, log: seq<Event>, e: Event, u: User)
    requires ValidScores(scores) && IsNew(s, e) && Matches(scores, e) &&
      UserReflects(scores, UserOf(s.users, u), log, u)
    ensures UserReflects(scores, UserOf(Consumed(scores, s, e).0.users, u), log + [e], u)
  {
    hide Tally, Views, IsBestCombo, Bucket, Pass, WithEnding;
    TallyGrows(scores, log, e, ByUser(u), Once());
    TallyGrows(scores, log, e, ByUser(u), TimeOf());
    TallyGrows(scores, log, e, ByUser(u), TotalOf());
    TallyGrows(scores, log, e, ByUser(u), HitsOf());
    ViewsGrow(log, e, ViewsOf(u));
    BestComboGrows(scores, log, e, u, UserOf(s.users, u).combo);
  }

  lemma MonthGrows(scores: Scores, s: Stats, log: seq<Event>, e: Event, k: Month)
    requires ValidScores(scores) && IsNew(s, e) && Matches(scores, e) &&
      MonthReflects(scores, MonthOf(s.months, k), log, k)
    ensures MonthReflects(scores, MonthOf(Consumed(scores, s, e).0.months, k), log + [e], k)
  {
    hide Tally, Views, Bucket, Pass, WithEnding;
    TallyGrows(scores, log, e, InMonth(k), Once());
    TallyGrows(scores, log, e, InMonth(k), TimeOf());
    ViewsGrow(log, e, ViewsIn(k));
  }

  lemma PlayGrows(scores: Scores, s: Stats, log: seq<Event>, e: Event, k: Play)
    requires ValidScores(scores) && IsNew(s, e) && Matches(scores, e)
    requires ActivityReflects(scores, PlayOf(s.plays, k), log, OfPlay(k))
    ensures ActivityReflects(scores, PlayOf(Consumed(scores, s, e).0.plays, k), log + [e], OfPlay(k))
  {
    hide Tally, Views, Bucket, PlayTime, WithEnding;
    TallyGrows(scores, log, e, OfPlay(k), Once());
    TallyGrows(scores, log, e, AndPassed(OfPlay(k)), Once());
  }

  lemma MapGrows(scores: Scores, s: Stats, log: seq<Event>, e: Event, b: Map)
    requires ValidScores(scores) && IsNew(s, e) && Matches(scores, e)
    requires ActivityReflects(scores, MapOf(s.maps, b), log, OnMap(b))
    ensures ActivityReflects(scores, MapOf(Consumed(scores, s, e).0.maps, b), log + [e], OnMap(b))
  {
    hide Tally, Views, Bucket, PlayTime, WithEnding;
    TallyGrows(scores, log, e, OnMap(b), Once());
    TallyGrows(scores, log, e, AndPassed(OnMap(b)), Once());
  }

  lemma CellGrows(scores: Scores, s: Stats, log: seq<Event>, e: Event, b: Map, i: nat)
    requires ValidScores(scores) && IsNew(s, e) && Matches(scores, e)
    requires CellReflects(scores, HistogramOf(s.histograms, b), log, b, i)
    ensures CellReflects(scores, HistogramOf(Consumed(scores, s, e).0.histograms, b), log + [e], b, i)
  {
    hide Tally, Bucket, WithScore, WithView, HistogramOf, EndedAt;
    TallyGrows(scores, log, e, EndedAt(b, Failed, i), Once());
    TallyGrows(scores, log, e, EndedAt(b, Abandoned, i), Once());
    if e.ScoreAccepted? { ScoreMovesCell(s, scores[e.score], b, i); }
    ViewKeepsCells(s, e, b);
  }

  lemma ViewKeepsCells(s: Stats, e: Event, b: Map)
    ensures e.ReplayViewed? ==>
      HistogramOf(WithView(s, e.user, e.month).histograms, b) == HistogramOf(s.histograms, b)
  {}

  /** One score raises at most one cell, that of its beatmap, its ending and its hundredth, by one. */
  lemma ScoreMovesCell(s: Stats, score: Score, b: Map, i: nat)
    requires 0.0 <= score.progress &&
      |HistogramOf(s.histograms, b).failed| == BUCKETS == |HistogramOf(s.histograms, b).quit|
    ensures var before, after := HistogramOf(s.histograms, b), HistogramOf(WithScore(s, score).histograms, b);
      |after.failed| == BUCKETS == |after.quit| &&
      (i < BUCKETS ==>
        after.failed[i] == before.failed[i] + (if EndedAt(b, Failed, i)(score) then 1 else 0) &&
        after.quit[i] == before.quit[i] + (if EndedAt(b, Abandoned, i)(score) then 1 else 0))
  {
    hide Bucket, PlayTime, Pass, Zeros;
    var key, bucket := MapKey(score), Bucket(score.progress);
    assert WithScore(s, score).histograms ==
      if score.outcome == Passed then s.histograms
      else s.histograms[key := WithEnding(HistogramOf(s.histograms, key), score.outcome, bucket)];
    assert b == key <==> score.beatmap == b.beatmap && score.user.ruleset == b.ruleset;
  }

  lemma ConsumeReflects(scores: Scores, s: Stats, log: seq<Event>, e: Event)
    requires ValidScores(scores) && Reflects(scores, s, log)
    ensures var step := Consumed(scores, s, e); Reflects(scores, step.0, if step.1.Applied? then log + [e] else log)
    ensures Consumed(scores, s, e).1.Applied? ==> e !in log
  {
    hide TablesReflect, WithScore, WithView;
    var step := Consumed(scores, s, e);
    if step.1.Applied? {
      CheckpointsKept(s, scores[e.score], e);
      TablesGrow(scores, s, log, e);
    }
  }

  lemma TablesGrow(scores: Scores, s: Stats, log: seq<Event>, e: Event)
    requires ValidScores(scores) && IsNew(s, e) && Matches(scores, e) && TablesReflect(scores, s, log)
    ensures TablesReflect(scores, Consumed(scores, s, e).0, log + [e])
  {
    hide Consumed, UserReflects, MonthReflects, ActivityReflects, CellReflects, OfPlay, OnMap;
    var after := Consumed(scores, s, e).0;
    forall u ensures UserReflects(scores, UserOf(after.users, u), log + [e], u) { UserGrows(scores, s, log, e, u); }
    forall k ensures MonthReflects(scores, MonthOf(after.months, k), log + [e], k) { MonthGrows(scores, s, log, e, k); }
    forall k ensures ActivityReflects(scores, PlayOf(after.plays, k), log + [e], OfPlay(k)) {
      PlayGrows(scores, s, log, e, k);
    }
    forall b ensures ActivityReflects(scores, MapOf(after.maps, b), log + [e], OnMap(b)) {
      MapGrows(scores, s, log, e, b);
    }
    forall b, i ensures CellReflects(scores, HistogramOf(after.histograms, b), log + [e], b, i) {
      CellGrows(scores, s, log, e, b, i);
    }
  }

  lemma {:induction false} RunReflects(scores: Scores, s: Stats, log: seq<Event>, deliveries: seq<Event>)
    requires ValidScores(scores) && Reflects(scores, s, log)
    ensures Reflects(scores, After(scores, s, deliveries), log + AppliedIn(scores, s, deliveries))
    decreases |deliveries|
  {
    hide Consumed, Reflects;
    if deliveries == [] {
      assert log + [] == log;
    } else {
      var step := Consumed(scores, s, deliveries[0]);
      ConsumeReflects(scores, s, log, deliveries[0]);
      var longer := if step.1.Applied? then log + [deliveries[0]] else log;
      RunReflects(scores, step.0, longer, deliveries[1..]);
      var rest := AppliedIn(scores, step.0, deliveries[1..]);
      assert longer + rest == log + ((if step.1.Applied? then [deliveries[0]] else []) + rest);
    }
  }

  lemma StartReflects(scores: Scores)
    ensures Reflects(scores, NoStats(), [])
  {}

  /** Rows are the sums of the applied events, and no event is applied twice however often it is delivered. */
  lemma EventsCountOnce(scores: Scores, deliveries: seq<Event>)
    requires ValidScores(scores)
    ensures Reflects(scores, After(scores, NoStats(), deliveries), AppliedIn(scores, NoStats(), deliveries))
  {
    hide After, AppliedIn, Reflects;
    StartReflects(scores);
    RunReflects(scores, NoStats(), [], deliveries);
    assert [] + AppliedIn(scores, NoStats(), deliveries) == AppliedIn(scores, NoStats(), deliveries);
  }

  /** Deliveries of one user in source order, with repetitions. */
  ghost predicate InSourceOrder(deliveries: seq<Event>) {
    forall i, j :: 0 <= i < j < |deliveries| && deliveries[i].user == deliveries[j].user ==>
      deliveries[i].position <= deliveries[j].position &&
      (deliveries[i].position == deliveries[j].position ==> deliveries[i] == deliveries[j])
  }

  lemma StaysNew(scores: Scores, s: Stats, e: Event, later: Event)
    requires ValidScores(scores) && IsNew(s, later) && (e.user == later.user ==> e.position < later.position)
    ensures IsNew(Consumed(scores, s, e).0, later)
  {
    hide WithScore, WithView;
    if IsNew(s, e) && Matches(scores, e) { CheckpointsKept(s, scores[e.score], e); }
  }

  /** Delivered in source order, every event that matches its score is counted. */
  lemma {:induction false} OrderedDeliveriesAllCount(scores: Scores, s: Stats, deliveries: seq<Event>, j: nat)
    requires ValidScores(scores) && InSourceOrder(deliveries) && j < |deliveries|
    requires IsNew(s, deliveries[j]) && Matches(scores, deliveries[j])
    ensures deliveries[j] in AppliedIn(scores, s, deliveries)
    decreases |deliveries|
  {
    var first, step := deliveries[0], Consumed(scores, s, deliveries[0]);
    if deliveries[j] == first {
      assert step.1.Applied?;
    } else {
      StaysNew(scores, s, first, deliveries[j]);
      OrderedDeliveriesAllCount(scores, step.0, deliveries[1..], j - 1);
    }
  }
}
