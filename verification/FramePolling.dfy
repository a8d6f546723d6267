/** Within one history a cursor names a frame, and an untruncated poll is the next slice of what was published. */
module FramePolling {
  import opened Basics
  import opened RealtimeTypes
  import opened FrameRing
  import opened FrameHistory

  /** The frames published since the history began, with cursors 1, 2, 3 and so on. */
  ghost predicate Numbered(log: seq<Frame>) {
    forall i :: 0 <= i < |log| ==> log[i].cursor == i + 1
  }

  /** Later frames expire no earlier. */
  ghost predicate Steady(log: seq<Frame>) {
    forall i, j :: 0 <= i < j < |log| ==> log[i].expiresAt <= log[j].expiresAt
  }

  ghost predicate Suffix(frames: seq<Frame>, log: seq<Frame>) {
    |frames| <= |log| && frames == log[|log| - |frames|..]
  }

  /** The stored frames are the last ones of the log, and the counter its length. */
  ghost predicate Tracks(h: Histories, account: Account, log: seq<Frame>) {
    account in h.streams ==>
      h.streams[account].cursor == |log| && Numbered(log) && Suffix(FramesOf(h, account), log)
  }

  function LogAfter(h: Histories, account: Account, epoch: Epoch, reset: bool, log: seq<Frame>,
                    frame: Frame): seq<Frame> {
    if StreamFor(h, account, epoch, reset).None? then [frame] else log + [frame]
  }

  lemma SuffixOfSuffix(frames: seq<Frame>, k: nat, log: seq<Frame>)
    requires Suffix(frames, log) && k <= |frames|
    ensures Suffix(frames[k..], log)
  {
    assert frames[k..] == log[|log| - |frames| + k..];
  }

  lemma SuffixAppend(frames: seq<Frame>, log: seq<Frame>, frame: Frame)
    requires Suffix(frames, log)
    ensures Suffix(frames + [frame], log + [frame])
  {}

  lemma {:induction false} SteadySurvivors(frames: seq<Frame>, at: Time) returns (k: nat)
    requires Steady(frames)
    ensures k <= |frames| && Survivors(frames, at) == frames[k..]
  {
    if frames == [] { return 0; }
    k := SteadySurvivors(frames[1..], at);
    if frames[0].expiresAt <= at {
      assert frames[1..][k..] == frames[k + 1..];
      k := k + 1;
    } else {
      AllSurvive(frames[1..], at);
      assert frames == [frames[0]] + frames[1..];
      k := 0;
    }
  }

  lemma {:induction false} AllSurvive(frames: seq<Frame>, at: Time)
    requires forall i :: 0 <= i < |frames| ==> frames[i].expiresAt > at
    ensures Survivors(frames, at) == frames
  {
    if frames != [] { AllSurvive(frames[1..], at); }
  }

  lemma SteadySuffix(frames: seq<Frame>, log: seq<Frame>)
    requires Suffix(frames, log) && Steady(log)
    ensures Steady(frames)
  {}

  lemma SurvivorsTrack(frames: seq<Frame>, at: Time, log: seq<Frame>)
    requires Suffix(frames, log) && Steady(log)
    ensures Suffix(Survivors(frames, at), log)
  {
    hide Survivors, Suffix, Steady;
    SteadySuffix(frames, log);
    var k := SteadySurvivors(frames, at);
    SuffixOfSuffix(frames, k, log);
  }

  // ---------------------------------------------------------------- steps

  lemma PrunedTracks(h: Histories, account: Account, at: Time, log: seq<Frame>)
    requires Tracks(h, account, log) && Steady(log)
    ensures Tracks(Pruned(h, account, at), account, log)
  {
    hide Survivors, Suffix, Steady, Numbered;
    if account in h.streams { SurvivorsTrack(FramesOf(h, account), at, log); }
  }

  lemma ExpiredTracks(cfg: Config, h: Histories, live: Live, now: Time, later: Time, account: Account, log: seq<Frame>)
    requires ValidHistories(cfg, h, live, now) && Tracks(h, account, log)
    ensures Tracks(ExpireHistories(h, later), account, log)
  {}

  lemma PublishedTracks(cfg: Config, h: Histories, live: Live, account: Account, epoch: Epoch, now: Time, frame: Frame,
                        reset: bool, log: seq<Frame>)
    requires cfg.Valid() && ValidHistories(cfg, h, live, now) && |frame.payload| <= cfg.maxBytes &&
      now < frame.expiresAt
    requires frame.cursor == NextCursor(StreamFor(h, account, epoch, reset))
    requires Tracks(h, account, log) && Steady(log)
    ensures Tracks(Published(cfg, h, account, epoch, now, frame, reset), account,
      LogAfter(h, account, epoch, reset, log, frame))
  {
    hide Survivors, Suffix, Steady, Evicted, Insert, Fits, Bytes, ValidRing, LatestExpiry;
    var carried := Carried(cfg, h, account, epoch, reset, now);
    var base := if StreamFor(h, account, epoch, reset).None? then [] else log;
    var k := PublishedRing(cfg, h, live, account, epoch, now, frame, reset);
    assert Suffix(carried, base) by { CarriedTracks(cfg, h, live, account, epoch, now, reset, log); }
    SuffixOfSuffix(carried, k, base);
    SuffixAppend(carried[k..], base, frame);
    assert LogAfter(h, account, epoch, reset, log, frame) == base + [frame];
  }

  lemma CarriedTracks(cfg: Config, h: Histories, live: Live, account: Account, epoch: Epoch, now: Time, reset: bool,
                      log: seq<Frame>)
    requires ValidHistories(cfg, h, live, now) && Tracks(h, account, log) && Steady(log)
    ensures Suffix(Carried(cfg, h, account, epoch, reset, now),
      if StreamFor(h, account, epoch, reset).None? then [] else log)
  {
    hide Survivors, Steady, Numbered, ValidRing;
    NothingCarried(now);
    if StreamFor(h, account, epoch, reset).Some? {
      SurvivorsTrack(FramesOf(h, account), now, log);
      if account in h.rings { RingIsBounded(cfg, now, h.rings[account], h.streams[account]); }
    }
  }

  // ---------------------------------------------------------------- polling

  lemma {:induction false} FirstAfterIs(log: seq<Frame>, m: nat, seen: nat, limit: nat)
    requires Numbered(log) && m <= seen <= |log|
    ensures FirstAfter(log[m..], seen, limit) == log[seen..Min(seen + limit, |log|)]
    decreases |log| - m, limit
  {
    if m == |log| || limit == 0 {
    } else if m < seen {
      assert log[m..][1..] == log[m + 1..];
      FirstAfterIs(log, m + 1, seen, limit);
    } else {
      assert log[m..][1..] == log[m + 1..];
      FirstAfterIs(log, m + 1, m + 1, limit - 1);
      FirstAfterSkips(log, m + 1, m, limit - 1);
      assert [log[m]] + log[m + 1..Min(m + limit, |log|)] == log[m..Min(m + limit, |log|)];
    }
  }

  /** Past a cursor, a smaller bound selects the same frames. */
  lemma {:induction false} FirstAfterSkips(log: seq<Frame>, m: nat, seen: nat, limit: nat)
    requires Numbered(log) && m <= |log| && seen < m
    ensures FirstAfter(log[m..], seen, limit) == FirstAfter(log[m..], m, limit)
    decreases |log| - m
  {
    if m < |log| && limit > 0 {
      assert log[m..][1..] == log[m + 1..];
      FirstAfterSkips(log, m + 1, seen, limit - 1);
      FirstAfterSkips(log, m + 1, m, limit - 1);
    }
  }

  lemma NothingAfter(seen: nat, limit: nat)
    ensures FirstAfter([], seen, limit) == []
  {}

  // ---------------------------------------------------------------- any expiries

  /** Stored frames are frames of the log, found there by their cursors, in order. */
  ghost predicate Drawn(frames: seq<Frame>, log: seq<Frame>) {
    Increasing(frames) && forall f :: f in frames ==> 1 <= f.cursor <= |log| && log[f.cursor - 1] == f
  }

  /** The counter is the length of the log and the stored frames are drawn from it; expiry may leave holes. */
  ghost predicate Recorded(h: Histories, account: Account, log: seq<Frame>) {
    account in h.streams ==>
      h.streams[account].cursor == |log| && Numbered(log) && Drawn(FramesOf(h, account), log)
  }

  lemma DrawnSurvivors(frames: seq<Frame>, at: Time, log: seq<Frame>)
    requires Drawn(frames, log)
    ensures Drawn(Survivors(frames, at), log)
  {
    hide Survivors, Increasing;
    SurvivorsIncreasing(frames, at);
    forall f | f in Survivors(frames, at) ensures f in frames { SurvivorsMembers(frames, at, f); }
  }

  lemma DrawnAppend(frames: seq<Frame>, k: nat, log: seq<Frame>, frame: Frame)
    requires Drawn(frames, log) && k <= |frames| && frame.cursor == |log| + 1
    ensures Drawn(frames[k..] + [frame], log + [frame])
  {
    forall f | f in frames[k..] ensures f in frames {}
    forall i | 0 <= i < |frames[k..]| ensures frames[k..][i].cursor <= |log| { assert frames[k..][i] in frames; }
  }

  lemma PrunedRecords(h: Histories, account: Account, at: Time, log: seq<Frame>)
    requires Recorded(h, account, log)
    ensures Recorded(Pruned(h, account, at), account, log)
  {
    hide Survivors, Drawn, Numbered;
    if account in h.streams {
      DrawnSurvivors(FramesOf(h, account), at, log);
      NothingDrawn(log);
    }
  }

  lemma NothingDrawn(log: seq<Frame>)
    ensures Drawn([], log)
  {}

  lemma ExpiredRecords(h: Histories, later: Time, account: Account, log: seq<Frame>)
    requires Recorded(h, account, log)
    ensures Recorded(ExpireHistories(h, later), account, log)
  {
    hide Drawn, Numbered;
    NothingDrawn(log);
  }

  lemma CarriedRecords(cfg: Config, h: Histories, account: Account, epoch: Epoch, reset: bool, now: Time,
                       log: seq<Frame>)
    requires RingsValid(cfg, h, now) && Recorded(h, account, log)
    ensures Drawn(Carried(cfg, h, account, epoch, reset, now),
      if StreamFor(h, account, epoch, reset).None? then [] else log)
  {
    hide Survivors, Drawn, Numbered, ValidRing;
    NothingCarried(now);
    NothingDrawn([]);
    NothingDrawn(log);
    if StreamFor(h, account, epoch, reset).Some? { DrawnSurvivors(FramesOf(h, account), now, log); }
  }

  lemma PublishedRecords(cfg: Config, h: Histories, live: Live, account: Account, epoch: Epoch, now: Time, frame: Frame,
                         reset: bool, log: seq<Frame>)
    requires cfg.Valid() && ValidHistories(cfg, h, live, now) && |frame.payload| <= cfg.maxBytes &&
      now < frame.expiresAt
    requires frame.cursor == NextCursor(StreamFor(h, account, epoch, reset)) && Recorded(h, account, log)
    ensures Recorded(Published(cfg, h, account, epoch, now, frame, reset), account,
      LogAfter(h, account, epoch, reset, log, frame))
  {
    hide Drawn, Evicted, Insert, Fits, Bytes, ValidRing, LatestExpiry, Carried;
    var carried := Carried(cfg, h, account, epoch, reset, now);
    var base := if StreamFor(h, account, epoch, reset).None? then [] else log;
    var k := PublishedRing(cfg, h, live, account, epoch, now, frame, reset);
    CarriedRecords(cfg, h, account, epoch, reset, now, log);
    DrawnAppend(carried, k, base, frame);
    assert LogAfter(h, account, epoch, reset, log, frame) == base + [frame];
  }

  /** A window holds stored frames past the cursor, in order. */
  lemma {:induction false} WindowIsDrawn(frames: seq<Frame>, after: nat, limit: nat, log: seq<Frame>)
    requires Drawn(frames, log)
    ensures var found := FirstAfter(frames, after, limit);
      Drawn(found, log) && (forall f :: f in found ==> f in frames && f.cursor > after)
  {
    hide Drawn;
    NothingDrawn(log);
    if frames != [] && limit > 0 {
      DrawnTail(frames, log);
      var left := if frames[0].cursor > after then limit - 1 else limit;
      WindowIsDrawn(frames[1..], after, left, log);
      var rest := FirstAfter(frames[1..], after, left);
      DrawnCons(frames, rest, log);
      assert forall f :: f in frames[1..] ==> f in frames;
    }
  }

  lemma DrawnTail(frames: seq<Frame>, log: seq<Frame>)
    requires Drawn(frames, log) && frames != []
    ensures Drawn(frames[1..], log)
  {
    forall f | f in frames[1..] ensures f in frames {}
  }

  lemma DrawnCons(frames: seq<Frame>, rest: seq<Frame>, log: seq<Frame>)
    requires Drawn(frames, log) && frames != [] && Drawn(rest, log) && forall f :: f in rest ==> f in frames[1..]
    ensures Drawn([frames[0]] + rest, log)
  {
    forall i | 0 <= i < |rest| ensures frames[0].cursor < rest[i].cursor { assert rest[i] in frames[1..]; }
  }

  // ---------------------------------------------------------------- the truncation flag

  /** The frames right after a cursor, none left out. */
  predicate Consecutive(frames: seq<Frame>, after: nat) {
    forall i :: 0 <= i < |frames| ==> frames[i].cursor == after + 1 + i
  }

  /** Whatever the cursor, an untruncated window over a gapless end of the log starts that many frames into it. */
  lemma UntruncatedWindow(frames: seq<Frame>, log: seq<Frame>, after: nat, limit: nat)
    requires Numbered(log) && Suffix(frames, log) && frames != [] && !WindowAfter(frames, after, limit).truncated
    ensures var m := Min(after, |log|); FirstAfter(frames, after, limit) == log[m..Min(m + limit, |log|)]
  {
    hide FirstAfter;
    var m := |log| - |frames|;
    assert frames[0] == log[m] && log[m].cursor == m + 1;
    if after <= |log| {
      FirstAfterIs(log, m, after, limit);
    } else {
      NonePast(frames, after, limit, |log|);
      assert log[|log|..|log|] == [];
    }
  }

  lemma {:induction false} NonePast(frames: seq<Frame>, after: nat, limit: nat, last: nat)
    requires (forall i :: 0 <= i < |frames| ==> frames[i].cursor <= last) && last <= after
    ensures FirstAfter(frames, after, limit) == []
  {
    if frames != [] && limit > 0 { NonePast(frames[1..], after, limit, last); }
  }

  /** Over a gapless end of the log, the flag says whether the frames returned continue from the cursor. */
  lemma FlagIsExact(frames: seq<Frame>, log: seq<Frame>, after: nat, limit: nat)
    requires Numbered(log) && Suffix(frames, log) && WindowAfter(frames, after, limit).frames != []
    ensures WindowAfter(frames, after, limit).truncated <==> !Consecutive(FirstAfter(frames, after, limit), after)
  {
    hide FirstAfter;
    var found := FirstAfter(frames, after, limit);
    NothingAfter(after, limit);
    if WindowAfter(frames, after, limit).truncated {
      assert frames[0] == log[|log| - |frames|];
      assert found[0] == frames[0] by { FirstFound(frames, after, limit); }
    } else {
      UntruncatedWindow(frames, log, after, limit);
    }
  }

  lemma FirstFound(frames: seq<Frame>, after: nat, limit: nat)
    requires frames != [] && after < frames[0].cursor && FirstAfter(frames, after, limit) != []
    ensures FirstAfter(frames, after, limit)[0] == frames[0]
  {}
}
