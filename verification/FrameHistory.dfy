/** Frame histories stay within their limits and their owner's lease. */
module FrameHistory {
  import opened Basics
  import opened RealtimeTypes
  import opened FrameRing

  // ---------------------------------------------------------------- invariant

  ghost predicate Increasing(frames: seq<Frame>) {
    forall i, j :: 0 <= i < j < |frames| ==> frames[i].cursor < frames[j].cursor
  }

  ghost predicate UpTo(frames: seq<Frame>, cursor: nat, deadline: Time) {
    forall f :: f in frames ==> 0 < f.cursor <= cursor && f.expiresAt <= deadline
  }

  ghost predicate ValidRing(cfg: Config, now: Time, ring: Ring, stream: Stream) {
    0 < |ring.frames| <= cfg.maxFrames && ring.bytes == Bytes(ring.frames) <= cfg.maxBytes &&
    Increasing(ring.frames) && UpTo(ring.frames, stream.cursor, ring.deadline) && now < ring.deadline <= stream.deadline
  }

  ghost predicate StreamsOwned(h: Histories, live: Live, now: Time) {
    forall a :: a in h.streams ==>
      Owns(live, a, h.streams[a].epoch) && now < h.streams[a].deadline <= live[a].expiresAt
  }

  ghost predicate RingsValid(cfg: Config, h: Histories, now: Time) {
    forall a :: a in h.rings ==> a in h.streams && ValidRing(cfg, now, h.rings[a], h.streams[a])
  }

  ghost predicate ValidHistories(cfg: Config, h: Histories, live: Live, now: Time) {
    StreamsOwned(h, live, now) && RingsValid(cfg, h, now)
  }

  // ---------------------------------------------------------------- survivors and suffixes

  /** Exactly the unexpired frames survive. */
  lemma {:induction false} SurvivorsMembers(frames: seq<Frame>, at: Time, f: Frame)
    ensures f in Survivors(frames, at) <==> f in frames && f.expiresAt > at
  {
    if frames != [] {
      SurvivorsMembers(frames[1..], at, f);
      assert frames == [frames[0]] + frames[1..];
    }
  }

  lemma {:induction false} SurvivorsSize(frames: seq<Frame>, at: Time)
    ensures |Survivors(frames, at)| <= |frames| && Bytes(Survivors(frames, at)) <= Bytes(frames)
  {
    if frames != [] {
      SurvivorsSize(frames[1..], at);
      if frames[0].expiresAt > at {
        assert Survivors(frames, at)[1..] == Survivors(frames[1..], at);
      } else {
        assert Survivors(frames, at) == Survivors(frames[1..], at);
      }
    }
  }

  lemma {:induction false} SurvivorsIncreasing(frames: seq<Frame>, at: Time)
    requires Increasing(frames)
    ensures Increasing(Survivors(frames, at))
  {
    if frames != [] {
      SurvivorsIncreasing(frames[1..], at);
      var rest := Survivors(frames[1..], at);
      forall i | 0 <= i < |rest| ensures frames[0].cursor < rest[i].cursor {
        SurvivorsMembers(frames[1..], at, rest[i]);
      }
    }
  }

  lemma SurvivorsFacts(frames: seq<Frame>, at: Time, cursor: nat, deadline: Time)
    requires Increasing(frames) && UpTo(frames, cursor, deadline)
    ensures var left := Survivors(frames, at);
      |left| <= |frames| && Bytes(left) <= Bytes(frames) && Increasing(left) && UpTo(left, cursor, deadline) &&
      (forall f :: f in left ==> f.expiresAt > at)
  {
    hide Survivors, Increasing, Bytes;
    SurvivorsSize(frames, at);
    SurvivorsIncreasing(frames, at);
    forall f ensures f in Survivors(frames, at) <==> f in frames && f.expiresAt > at {
      SurvivorsMembers(frames, at, f);
    }
  }

  lemma {:induction false} LatestBounds(frames: seq<Frame>, deadline: Time)
    requires forall f :: f in frames ==> f.expiresAt <= deadline
    ensures LatestExpiry(frames) <= deadline
    ensures forall f :: f in frames ==> f.expiresAt <= LatestExpiry(frames)
  {
    if frames != [] {
      LatestBounds(frames[1..], deadline);
      assert frames == [frames[0]] + frames[1..];
    }
  }

  // ---------------------------------------------------------------- preservation

  lemma ExpireHistoriesKeeps(cfg: Config, h: Histories, live: Live, now: Time, later: Time)
    requires ValidHistories(cfg, h, live, now) && now <= later
    ensures ValidHistories(cfg, ExpireHistories(h, later), Alive(live, later), later)
  {
    hide Increasing, UpTo;
  }

  lemma ClearedHistoryKeeps(cfg: Config, h: Histories, live: Live, now: Time, account: Account, after: Live)
    requires ValidHistories(cfg, h, live, now)
    requires forall a :: a in live && a != account ==> a in after && after[a] == live[a]
    ensures ValidHistories(cfg, ClearedHistory(h, account), after, now)
  {
    hide ValidRing;
  }

  lemma LongerHistoryKeeps(cfg: Config, h: Histories, live: Live, now: Time, account: Account, expiresAt: Time)
    requires ValidHistories(cfg, h, live, now) && account in live && live[account].expiresAt <= expiresAt
    ensures ValidHistories(cfg, h, live[account := live[account].(expiresAt := expiresAt)], now)
  {
    hide ValidRing;
  }

  lemma SettledIsValid(cfg: Config, now: Time, at: Time, ring: Ring, stream: Stream)
    requires ValidRing(cfg, now, ring, stream) && now <= at
    ensures var z := Settled(Survivors(ring.frames, at)); z.Some? ==> ValidRing(cfg, now, z.value, stream)
  {
    hide Survivors, Increasing, Bytes, LatestExpiry;
    var left := Survivors(ring.frames, at);
    SurvivorsFacts(ring.frames, at, stream.cursor, ring.deadline);
    LatestBounds(left, ring.deadline);
    if left != [] { assert left[0] in left; }
  }

  lemma PrunedKeeps(cfg: Config, h: Histories, live: Live, now: Time, account: Account, at: Time)
    requires ValidHistories(cfg, h, live, now) && now <= at
    ensures ValidHistories(cfg, Pruned(h, account, at), live, now)
    ensures |FramesOf(h, account)| <= cfg.maxFrames
  {
    hide ValidRing, Settled, Survivors;
    if account in h.rings {
      SettledIsValid(cfg, now, at, h.rings[account], h.streams[account]);
      RingIsBounded(cfg, now, h.rings[account], h.streams[account]);
    } else {
      assert Settled(Survivors([], at)) == None by { NothingSettled(at); }
    }
  }

  lemma NothingSettled(at: Time)
    ensures Settled(Survivors([], at)) == None
  {}

  lemma RingIsBounded(cfg: Config, now: Time, ring: Ring, stream: Stream)
    requires ValidRing(cfg, now, ring, stream)
    ensures |ring.frames| <= cfg.maxFrames
  {}

  lemma {:induction false} SuffixFacts(frames: seq<Frame>, k: nat, cursor: nat, deadline: Time)
    requires k <= |frames| && Increasing(frames) && UpTo(frames, cursor, deadline)
    ensures Increasing(frames[k..]) && UpTo(frames[k..], cursor, deadline)
  {}

  /** After a publication the ring holds the longest fitting suffix of the unexpired frames, then the new frame. */
  lemma PublishedRing(cfg: Config, h: Histories, live: Live, account: Account, epoch: Epoch, now: Time, frame: Frame,
                      reset: bool)
    returns (k: nat)
    requires cfg.Valid() && ValidHistories(cfg, h, live, now) && |frame.payload| <= cfg.maxBytes
    requires frame.cursor == NextCursor(StreamFor(h, account, epoch, reset)) && now < frame.expiresAt
    ensures var carried := Carried(cfg, h, account, epoch, reset, now);
      var ring := Published(cfg, h, account, epoch, now, frame, reset).rings[account];
      k <= |carried| && ring.frames == carried[k..] + [frame] && Fits(cfg, carried[k..], |frame.payload|) &&
      (forall j :: 0 <= j < k ==> !Fits(cfg, carried[j..], |frame.payload|)) &&
      ValidRing(cfg, now, ring, Published(cfg, h, account, epoch, now, frame, reset).streams[account])
  {
    hide Survivors, Evicted, Insert, Fits, ValidRing, Bytes, LatestExpiry;
    var carried := Carried(cfg, h, account, epoch, reset, now);
    CarriedFacts(cfg, h, live, account, epoch, now, reset, frame.cursor);
    k := EvictedIsLongestSuffix(cfg, carried, |frame.payload|);
    AppendedIsValid(cfg, carried, k, now, frame, epoch);
  }

  lemma CarriedFacts(cfg: Config, h: Histories, live: Live, account: Account, epoch: Epoch, now: Time, reset: bool,
                     cursor: nat)
    requires ValidHistories(cfg, h, live, now) && cursor == NextCursor(StreamFor(h, account, epoch, reset))
    ensures var carried := Carried(cfg, h, account, epoch, reset, now);
      Increasing(carried) && UpTo(carried, cursor - 1, LatestExpiry(carried)) && |carried| <= cfg.maxFrames
  {
    hide Survivors, Increasing, Bytes, LatestExpiry;
    var carried := Carried(cfg, h, account, epoch, reset, now);
    if !Restarts(h, account, epoch, reset) && account in h.rings {
      var ring, stream := h.rings[account], h.streams[account];
      SurvivorsFacts(ring.frames, now, stream.cursor, ring.deadline);
      LatestBounds(carried, ring.deadline);
    } else {
      assert carried == [] && Increasing(carried) by { NothingCarried(now); }
    }
  }

  lemma NothingCarried(now: Time)
    ensures Survivors([], now) == [] && Increasing([])
  {}

  lemma AppendedIsValid(cfg: Config, carried: seq<Frame>, k: nat, now: Time, frame: Frame, epoch: Epoch)
    requires k <= |carried| && Increasing(carried) && 0 < frame.cursor &&
      UpTo(carried, frame.cursor - 1, LatestExpiry(carried))
    requires Fits(cfg, carried[k..], |frame.payload|) && now < frame.expiresAt
    ensures var deadline := Max(LatestExpiry(carried), frame.expiresAt);
      Insert(carried[k..], frame) == carried[k..] + [frame] &&
      ValidRing(cfg, now, Ring(Insert(carried[k..], frame), Bytes(carried[k..]) + |frame.payload|, deadline),
        Stream(frame.cursor, frame.sequence, epoch, deadline))
  {
    hide LatestExpiry, Bytes, Insert, Increasing, UpTo;
    var kept := carried[k..];
    SuffixFacts(carried, k, frame.cursor - 1, LatestExpiry(carried));
    AppendIncreases(kept, frame, LatestExpiry(carried));
    BytesAppend(kept, frame);
  }

  lemma AppendIncreases(kept: seq<Frame>, frame: Frame, deadline: Time)
    requires Increasing(kept) && 0 < frame.cursor && UpTo(kept, frame.cursor - 1, deadline)
    ensures Insert(kept, frame) == kept + [frame]
    ensures Increasing(kept + [frame]) && UpTo(kept + [frame], frame.cursor, Max(deadline, frame.expiresAt))
  {
    hide Insert;
    assert forall i :: 0 <= i < |kept| ==> kept[i] in kept;
    InsertGreatest(kept, frame);
  }

  lemma PublishedKeeps(cfg: Config, h: Histories, live: Live, account: Account, now: Time, frame: Frame, reset: bool)
    requires cfg.Valid() && ValidHistories(cfg, h, live, now) && |frame.payload| <= cfg.maxBytes && account in live
    requires frame.cursor == NextCursor(StreamFor(h, account, live[account].epoch, reset))
    requires now < frame.expiresAt <= live[account].expiresAt
    ensures ValidHistories(cfg, Published(cfg, h, account, live[account].epoch, now, frame, reset), live, now)
  {
    hide Survivors, Evicted, Insert, Fits, ValidRing, Bytes, LatestExpiry, Carried;
    var epoch := live[account].epoch;
    var k := PublishedRing(cfg, h, live, account, epoch, now, frame, reset);
    CarriedDeadline(cfg, h, live, account, epoch, now, reset);
  }

  lemma CarriedDeadline(cfg: Config, h: Histories, live: Live, account: Account, epoch: Epoch, now: Time, reset: bool)
    requires ValidHistories(cfg, h, live, now) && account in live
    ensures LatestExpiry(Carried(cfg, h, account, epoch, reset, now)) <= live[account].expiresAt
  {
    hide Survivors, Increasing, Bytes;
    if !Restarts(h, account, epoch, reset) && account in h.rings {
      var ring, stream := h.rings[account], h.streams[account];
      SurvivorsFacts(ring.frames, now, stream.cursor, ring.deadline);
      LatestBounds(Carried(cfg, h, account, epoch, reset, now), ring.deadline);
    } else {
      NothingCarried(now);
    }
  }
}
