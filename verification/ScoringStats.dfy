/** Gameplay statistics projected from ordered score and replay-view events. */
module ScoringStats {
  import opened Basics

  datatype User = User(account: nat, ruleset: nat)

  datatype Month = Month(user: User, month: nat)

  datatype Play = Play(user: User, beatmap: nat)

  datatype Map = Map(beatmap: nat, ruleset: nat)

  datatype Outcome = Passed | Failed | Abandoned

  /** The authoritative score an event refers to; progress lies between 0 and 1. */
  datatype Score = Score(user: User, beatmap: nat, month: nat, started: int, ended: int, total: nat, hits: nat,
                         combo: nat,
                         outcome: Outcome, progress: real)

  datatype Event =
    | ScoreAccepted(position: nat, score: nat, user: User)
    | ReplayViewed(position: nat, score: nat, user: User, month: nat)

  datatype UserStat = UserStat(plays: nat, time: nat, total: nat, hits: nat, combo: nat, views: nat)

  datatype Monthly = Monthly(plays: nat, time: nat, views: nat)

  datatype Activity = Activity(attempts: nat, passes: nat)

  datatype Histogram = Histogram(failed: seq<nat>, quit: seq<nat>)

  datatype Stats = Stats(
    checkpoints: map<User, nat>,
    users: map<User, UserStat>,
    months: map<Month, Monthly>,
    plays: map<Play, Activity>,
    maps: map<Map, Activity>,
    histograms: map<Map, Histogram>)

  datatype Result = Duplicate | Rejected | Applied

  const BUCKETS: nat := 100

  function NoStats(): Stats { Stats(map[], map[], map[], map[], map[], map[]) }

  // ---------------------------------------------------------------- rows

  function UserOf(users: map<User, UserStat>,
                  u: User): UserStat { if u in users then users[u] else UserStat(0, 0, 0, 0, 0, 0) }

  function MonthOf(months: map<Month, Monthly>,
                   k: Month): Monthly { if k in months then months[k] else Monthly(0, 0, 0) }

  function PlayOf(plays: map<Play, Activity>, k: Play): Activity { if k in plays then plays[k] else Activity(0, 0) }

  function MapOf(maps: map<Map, Activity>, k: Map): Activity { if k in maps then maps[k] else Activity(0, 0) }

  function Zeros(): seq<nat> { seq(BUCKETS, _ => 0) }

  function HistogramOf(histograms: map<Map, Histogram>, k: Map): Histogram {
    if k in histograms then histograms[k] else Histogram(Zeros(), Zeros())
  }

  function PlayTime(score: Score): nat { if score.ended < score.started then 0 else score.ended - score.started }

  function Pass(score: Score): nat { if score.outcome == Passed then 1 else 0 }

  /** The hundredth in which a score ended; the last one takes everything from 99 percent on. */
  function Bucket(progress: real): (b: nat)
    requires 0.0 <= progress
    ensures b < BUCKETS
    ensures progress < 0.99 ==> b as real <= 100.0 * progress < b as real + 1.0
    ensures progress >= 0.99 ==> b == 99
  {
    var percent := (progress * 100.0).Floor;
    if percent < 99 then percent else 99
  }

  function Bumped(values: seq<nat>, bucket: nat): seq<nat> {
    if bucket < |values| then values[bucket := values[bucket] + 1] else values
  }

  function WithEnding(h: Histogram, outcome: Outcome, bucket: nat): Histogram {
    if outcome == Failed then h.(failed := Bumped(h.failed, bucket)) else h.(quit := Bumped(h.quit, bucket))
  }

  // ---------------------------------------------------------------- events

  function MapKey(score: Score): Map { Map(score.beatmap, score.user.ruleset) }

  function WithScore(s: Stats, score: Score): Stats
    requires 0.0 <= score.progress
  {
    var u, m, p, b := score.user, Month(score.user, score.month), Play(score.user, score.beatmap), MapKey(score);
    var user, month, play, beatmap := UserOf(s.users, u), MonthOf(s.months, m), PlayOf(s.plays, p), MapOf(s.maps, b);
    Stats(s.checkpoints,
      s.users[u := UserStat(user.plays + 1, user.time + PlayTime(score), user.total + score.total,
        user.hits + score.hits,
                            Max(user.combo, score.combo), user.views)],
      s.months[m := Monthly(month.plays + 1, month.time + PlayTime(score), month.views)],
      s.plays[p := Activity(play.attempts + 1, play.passes + Pass(score))],
      s.maps[b := Activity(beatmap.attempts + 1, beatmap.passes + Pass(score))],
      if score.outcome == Passed then s.histograms
      else s.histograms[b := WithEnding(HistogramOf(s.histograms, b), score.outcome, Bucket(score.progress))])
  }

  function WithView(s: Stats, u: User, month: nat): Stats {
    var m := Month(u, month);
    s.(users := s.users[u := UserOf(s.users, u).(views := UserOf(s.users, u).views + 1)],
       months := s.months[m := MonthOf(s.months, m).(views := MonthOf(s.months, m).views + 1)])
  }

  predicate IsNew(s: Stats, e: Event) { e.user !in s.checkpoints || e.position > s.checkpoints[e.user] }

  /** Advancing a checkpoint never moves it back. */
  function Advanced(s: Stats, e: Event): Stats {
    if IsNew(s, e) then s.(checkpoints := s.checkpoints[e.user := e.position]) else s
  }

  type Scores = map<nat, Score>

  predicate ValidScores(scores: Scores) { forall id :: id in scores ==> 0.0 <= scores[id].progress }

  /** An event whose score is missing or belongs to someone else is refused and changes nothing. */
  predicate Matches(scores: Scores, e: Event) { e.score in scores && scores[e.score].user == e.user }

  function Consumed(scores: Scores, s: Stats, e: Event): (Stats, Result)
    requires ValidScores(scores)
  {
    if !IsNew(s, e) then (s, Duplicate)
    else if !Matches(scores, e) then (s, Rejected)
    else
      (Advanced(if e.ScoreAccepted? then WithScore(s, scores[e.score]) else WithView(s, e.user, e.month), e), Applied)
  }
}
