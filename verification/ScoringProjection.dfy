/** The projection's tables as an object that keeps every total balanced and every user's row true to its events. */
module ScoringProjection {
  import opened Basics
  import opened ScoringStats
  import opened ScoringConservation

  /** The tables, and the events that were applied to them. */
  class Projection {
    const scores: Scores
    var stats: Stats
    ghost var applied: seq<Event>

    ghost predicate Valid()
      reads this
    {
      ValidScores(scores) && Balanced(stats) && Reflects(scores, stats, applied)
    }

    constructor (scores: Scores)
      requires ValidScores(scores)
      ensures Valid() && this.scores == scores && stats == NoStats() && applied == []
    {
      this.scores := scores;
      stats, applied := NoStats(), [];
      new;
      StartIsBalanced();
      StartReflects(scores);
    }

    method ApplyScore(score: Score)
      requires 0.0 <= score.progress
      modifies this`stats
      ensures stats == WithScore(old(stats), score)
      ensures Balanced(old(stats)) ==> Balanced(stats)
    {
      hide Balanced;
      if Balanced(stats) { ScoreKeepsBalance(stats, score); }
      hide Bucket, UserOf, MonthOf, PlayOf, MapOf, HistogramOf, PlayTime, Pass, WithEnding, MapKey;
      var user := UserOf(stats.users, score.user);
      user := user.(plays := user.plays + 1, time := user.time + PlayTime(score));
      user := user.(total := user.total + score.total, hits := user.hits + score.hits,
        combo := Max(user.combo, score.combo));
      stats := stats.(users := stats.users[score.user := user]);

      var month := MonthOf(stats.months, Month(score.user, score.month));
      month := month.(plays := month.plays + 1, time := month.time + PlayTime(score));
      stats := stats.(months := stats.months[Month(score.user, score.month) := month]);

      var play := PlayOf(stats.plays, Play(score.user, score.beatmap));
      play := play.(attempts := play.attempts + 1, passes := play.passes + Pass(score));
      stats := stats.(plays := stats.plays[Play(score.user, score.beatmap) := play]);

      var beatmap := MapOf(stats.maps, MapKey(score));
      beatmap := beatmap.(attempts := beatmap.attempts + 1, passes := beatmap.passes + Pass(score));
      stats := stats.(maps := stats.maps[MapKey(score) := beatmap]);

      CountEnding(score);
    }

    /** The histogram of the beatmap, for scores that did not pass. */
    method CountEnding(score: Score)
      requires 0.0 <= score.progress
      modifies this`stats
      ensures stats == old(stats).(histograms :=
        if score.outcome == Passed then old(stats).histograms
        else
          var h := WithEnding(HistogramOf(old(stats).histograms, MapKey(score)), score.outcome, Bucket(score.progress));
          old(stats).histograms[MapKey(score) := h])
    {
      hide Bucket, HistogramOf, Bumped, MapKey;
      if score.outcome == Failed || score.outcome == Abandoned {
        var histogram := HistogramOf(stats.histograms, MapKey(score));
        var values := if score.outcome == Failed then histogram.failed else histogram.quit;
        values := Bumped(values, Bucket(score.progress));
        histogram := if score.outcome == Failed then histogram.(failed := values) else histogram.(quit := values);
        stats := stats.(histograms := stats.histograms[MapKey(score) := histogram]);
      }
    }

    method ApplyReplayView(u: User, month: nat)
      modifies this`stats
      ensures stats == WithView(old(stats), u, month)
      ensures Balanced(old(stats)) ==> Balanced(stats)
    {
      hide Balanced;
      if Balanced(stats) { ViewKeepsBalance(stats, u, month); }
      var user := UserOf(stats.users, u);
      stats := stats.(users := stats.users[u := user.(views := user.views + 1)]);
      var monthly := MonthOf(stats.months, Month(u, month));
      stats := stats.(months := stats.months[Month(u, month) := monthly.(views := monthly.views + 1)]);
    }

    method Consume(e: Event) returns (result: Result)
      requires Valid()
      modifies this
      ensures Valid() && (stats, result) == Consumed(scores, old(stats), e)
      ensures result.Applied? ==> e !in old(applied) && applied == old(applied) + [e]
      ensures !result.Applied? ==> applied == old(applied) && stats == old(stats)
      ensures !result.Rejected? ==> !IsNew(stats, e)
      ensures result.Rejected? ==> !Matches(scores, e)
    {
      hide WithScore, WithView, Balanced, Reflects;
      ConsumeReflects(scores, stats, applied, e);
      ConsumeMovesCheckpoint(scores, stats, e, e);
      if !IsNew(stats, e) { return Duplicate; }
      if e.score !in scores || scores[e.score].user != e.user { return Rejected; }
      if e.ScoreAccepted? {
        ApplyScore(scores[e.score]);
      } else {
        ApplyReplayView(e.user, e.month);
      }
      AdvancedKeepsBalance(stats, e);
      stats := Advanced(stats, e);
      applied := applied + [e];
      result := Applied;
    }
  }

  lemma AdvancedKeepsBalance(s: Stats, e: Event)
    requires Balanced(s)
    ensures Balanced(Advanced(s, e))
  {}
}
