/** When each script accepts, and what it then changes of the session, the presence, the relations and the frames. */
module RealtimeTransitions {
  import opened Basics
  import opened RealtimeTypes
  import Registry = SessionRegistry
  import Rosters = ChannelRosters
  import Membership = ChannelMembership
  import Relations = SpectatorRelations
  import Agreement = SpectatorAgreement
  import Board = PresenceBoard
  import Ring = FrameRing
  import History = FrameHistory
  import Polling = FramePolling
  import opened RealtimeScripts
  import opened RealtimeRuns
  import opened RealtimeEffects

  // ---------------------------------------------------------------- opening and fencing

  /** Nothing of the account is left: no presence, preference, relation in either direction, or frames. */
  ghost predicate OnlyGone(s: State, after: State, account: Account) {
    after.now == s.now && after.board.presence == s.board.presence - {account} &&
    after.board.preferences == s.board.preferences - {account} &&
    after.spectators.relations ==
      (map v | v in s.spectators.relations && v != account && s.spectators.relations[v].host != account ::
        s.spectators.relations[v]) &&
    after.histories.rings == s.histories.rings - {account} && after.histories.streams == s.histories.streams - {account}
  }

  /**
   * A session opens exactly with a request ahead of the clock and within the durable deadline, a revision left to
   * give, and no other account on the session id. It gets the next revision, and everything of the account's last
   * epoch goes.
   */
  lemma OpenEffect(cfg: Config, s: State, account: Account, session: SessionId, requested: Time)
    requires Inv(cfg, s) && cfg.Valid()
    ensures var r := OpenSession(cfg, s, account, session, requested); var q := s.registry;
      (r.1.Session? <==>
        s.now < requested <= cfg.durable(session) &&
        (session in q.counters ==> q.counters[session].value != MAX_REVISION) &&
        (session in q.sessions ==> q.sessions[session].account == account)) &&
      (!r.1.Session? ==> r.0 == s) &&
      (r.1.Session? ==>
        var revision := (if session in q.counters then q.counters[session].value else 0) + 1;
        var until := Min(requested, s.now + cfg.sessionTtl);
        r.1 == Session(account, Epoch(session, revision), until) && OnlyGone(s, r.0, account) &&
        r.0.registry.epochs == q.epochs[account := Lease(Epoch(session, revision), until)] &&
        r.0.registry.counters == q.counters[session := Registry.Counter(revision, cfg.durable(session))] &&
        forall other :: other in r.0.registry.sessions <==>
          other == session || (other in q.sessions && q.sessions[other].account != account))
  {
    hide Board.ValidBoard, Membership.ValidChannels, History.ValidHistories, Agreement.ValidSpectators;
    hide Board.ClearedBoard, Rosters.Reopened, Relations.Severed, Relations.Cleared, Ring.ClearedHistory;
    Registry.SessionsHaveOneOwner(cfg, s.registry, s.now);
    ClearedOf(s, account);
    if account in s.registry.epochs {
      assert Registry.EpochNamesSession(cfg, s.registry, s.now, account);
      Agreement.SeveredEffect(cfg, s.registry.epochs, s.now, s.spectators, account);
    } else {
      NoRelationsOf(cfg, s, account);
    }
  }

  lemma ClearedOf(s: State, account: Account)
    ensures var board := Board.ClearedBoard(s.board, s.now, account);
      var histories := Ring.ClearedHistory(s.histories, account);
      board.presence == s.board.presence - {account} && board.preferences == s.board.preferences - {account} &&
      histories.rings == s.histories.rings - {account} && histories.streams == s.histories.streams - {account}
  {}

  lemma NoRelationsOf(cfg: Config, s: State, account: Account)
    requires Inv(cfg, s) && account !in s.registry.epochs
    ensures Relations.Cleared(s.spectators, account).relations ==
      map v | v in s.spectators.relations && v != account && s.spectators.relations[v].host != account ::
        s.spectators.relations[v]
  {
    hide Registry.Valid, Board.ValidBoard, Membership.ValidChannels, History.ValidHistories, Agreement.Mirrored;
    forall v | v in s.spectators.relations ensures v != account && s.spectators.relations[v].host != account {
      assert Agreement.ValidRelation(s.registry.epochs, s.now, v, s.spectators.relations[v]);
    }
  }

  /** A fence succeeds exactly for the current epoch, and then nothing of the account is left. */
  lemma FenceEffect(cfg: Config, s: State, account: Account, epoch: Epoch)
    requires Inv(cfg, s)
    ensures var r := FenceSession(s, account, epoch); var q := s.registry;
      (r.1.Done? <==> Owns(q.epochs, account, epoch)) && (!r.1.Done? ==> r.0 == s) &&
      (r.1.Done? ==>
        OnlyGone(s, r.0, account) && r.0.registry.epochs == q.epochs - {account} &&
        r.0.registry.sessions == q.sessions - {epoch.session} && r.0.registry.counters == q.counters)
  {
    hide Registry.Valid, Board.ValidBoard, Membership.ValidChannels, History.ValidHistories, Agreement.ValidSpectators;
    hide Board.ClearedBoard, Rosters.Fence, Relations.Severed, Relations.Cleared, Ring.ClearedHistory;
    hide Registry.StatusOf;
    CurrentIsOwner(cfg, s, account, epoch);
    ClearedOf(s, account);
    if Owns(s.registry.epochs, account, epoch) {
      Registry.SessionsHaveOneOwner(cfg, s.registry, s.now);
      Agreement.SeveredEffect(cfg, s.registry.epochs, s.now, s.spectators, account);
    }
  }

  // ---------------------------------------------------------------- presence

  /**
   * Presence is set exactly by the current epoch, until a time ahead and within the lease and the presence time,
   * unless a positive capacity is already filled by others. No other presence and no preference changes.
   */
  lemma AppearEffect(cfg: Config, s: State, account: Account, epoch: Epoch, expiresAt: Time, state: string,
                     capacity: nat)
    requires Inv(cfg, s)
    ensures var r := SetPresence(cfg, s, account, epoch, expiresAt, state, capacity); var before := s.board.presence;
      (r.1.Done? <==>
        Owns(s.registry.epochs, account, epoch) &&
        s.now < expiresAt <= Min(s.registry.epochs[account].expiresAt, s.now + cfg.presenceTtl) &&
        (capacity > 0 && account !in before ==> |before.Keys| < capacity)) &&
      r.0.board.presence ==
        (if r.1.Done? then before[account := Board.Presence(epoch, expiresAt, state)] else before) &&
      r.0 == s.(board := s.board.(presence := r.0.board.presence, index := r.0.board.index))
  {
    hide Registry.Valid, Membership.ValidChannels, History.ValidHistories, Agreement.ValidSpectators, Board.ValidBoard;
    hide Registry.StatusOf, Refreshed, Board.Ahead, Board.IndexOf;
    CurrentIsOwner(cfg, s, account, epoch);
    Board.AheadIsPresent(s.board, s.registry.epochs, s.now);
    assert Board.Full(s.board, s.now, account, capacity) <==>
      capacity > 0 && account !in s.board.presence && |s.board.presence.Keys| >= capacity by {
      assert account in Board.Ahead(Board.IndexOf(s.board), s.now) <==>
        account in Board.Ahead(Board.IndexOf(s.board), s.now).Keys;
    }
  }

  // ---------------------------------------------------------------- spectating

  /**
   * A viewer attaches exactly when both epochs are current and differ in account, the host is present, the relation
   * ends ahead of the clock and within both leases, the presence and the presence time, the host's set has room for
   * the viewer and a revision is left. Its one relation is then this one, under the next revision; nobody else's
   * changes.
   */
  lemma AttachEffect(cfg: Config, s: State, request: Relations.Relation, limit: nat)
    requires Inv(cfg, s)
    ensures var r := AttachSpectator(cfg, s, request, limit); var live, sp := s.registry.epochs, s.spectators;
      (r.1.Attached? <==>
        request.host != request.spectator && Owns(live, request.host, request.hostEpoch) &&
        Owns(live, request.spectator, request.spectatorEpoch) && request.host in s.board.presence &&
        s.now < request.expiresAt <= s.now + cfg.presenceTtl && request.expiresAt <= live[request.host].expiresAt &&
        request.expiresAt <= live[request.spectator].expiresAt &&
        request.expiresAt <= s.board.presence[request.host].expiresAt &&
        (request.spectator in ScoresOf(sp.viewers, request.host) ||
         |ScoresOf(sp.viewers, request.host)| < cfg.maxViewers) &&
        (request.spectator in sp.revisions ==> sp.revisions[request.spectator].value != MAX_REVISION)) &&
      (!r.1.Attached? ==> r.0 == s) &&
      (r.1.Attached? ==>
        var revision := (if request.spectator in sp.revisions then sp.revisions[request.spectator].value else 0) + 1;
        r.1.revision == revision &&
        r.0.spectators.relations == sp.relations[request.spectator := request.(revision := revision)] &&
        r.0.spectators.revisions ==
          sp.revisions[request.spectator := Registry.Counter(revision, live[request.spectator].expiresAt)] &&
        r.0 == s.(spectators := r.0.spectators, histories := r.0.histories))
  {
    hide Registry.Valid, Membership.ValidChannels, History.ValidHistories, Agreement.ValidSpectators;
    hide Registry.StatusOf, Refreshed, Relations.WithoutViewer, Ring.AttachPruned, Ring.LatestWindow;
    hide Board.IndexMirrors;
    CurrentIsOwner(cfg, s, request.host, request.hostEpoch);
    CurrentIsOwner(cfg, s, request.spectator, request.spectatorEpoch);
  }

  /** The window given to a new viewer is the end of the host's unexpired frames, in order. */
  lemma AttachWindow(cfg: Config, s: State, request: Relations.Relation, limit: nat, f: Ring.Frame)
    requires Inv(cfg, s) && AttachSpectator(cfg, s, request, limit).1.Attached?
    ensures var frames := Ring.FramesOf(AttachSpectator(cfg, s, request, limit).0.histories, request.host);
      var window := AttachSpectator(cfg, s, request, limit).1.history;
      (f in frames <==> f in Ring.FramesOf(s.histories, request.host) && s.now < f.expiresAt) &&
      History.Increasing(frames) && |window.frames| == Min(limit, |frames|) &&
      window.frames == frames[|frames| - |window.frames|..] && (window.truncated <==> limit < |frames|)
  {
    hide Registry.Valid, Membership.ValidChannels, Agreement.ValidSpectators, Board.ValidBoard, Registry.StatusOf;
    hide Relations.Attach, Ring.Survivors, PresenceUntil, Ring.Bytes, Ring.LatestExpiry, History.Increasing;
    var host := request.host;
    History.PrunedKeeps(cfg, s.histories, s.registry.epochs, s.now, host, s.now);
    PrunedFrames(s.histories, host, s.now, f);
    StoredIncrease(cfg, s, host);
    if host in s.histories.rings { History.SurvivorsIncreasing(s.histories.rings[host].frames, s.now); }
    else { History.SurvivorsIncreasing([], s.now); }
  }

  lemma StoredIncrease(cfg: Config, s: State, host: Account)
    requires Inv(cfg, s)
    ensures History.Increasing(Ring.FramesOf(s.histories, host)) && History.Increasing([])
  {
    hide Registry.Valid, Membership.ValidChannels, Agreement.ValidSpectators, Board.ValidBoard;
  }

  lemma PrunedFrames(h: Ring.Histories, account: Account, at: Time, f: Ring.Frame)
    ensures Ring.FramesOf(Ring.Pruned(h, account, at), account) == Ring.Survivors(Ring.FramesOf(h, account), at)
    ensures f in Ring.Survivors(Ring.FramesOf(h, account), at) <==> f in Ring.FramesOf(h, account) && at < f.expiresAt
  {
    hide Ring.Survivors, Ring.Bytes, Ring.LatestExpiry;
    History.SurvivorsMembers(Ring.FramesOf(h, account), at, f);
  }

  /** Listing deletes exactly the host's relations that end by the asked time, and nothing else changes. */
  lemma WatchEffect(cfg: Config, s: State, account: Account, epoch: Epoch, at: Time)
    requires Inv(cfg, s)
    ensures var r := ListSpectators(s, account, epoch, at); var time, before := Max(s.now, at), s.spectators.relations;
      (r.1.Watchers? <==> Owns(s.registry.epochs, account, epoch) && time < s.registry.epochs[account].expiresAt) &&
      (!r.1.Watchers? ==> r.0 == s) &&
      (r.1.Watchers? ==>
        r.0 == s.(spectators := r.0.spectators) && r.0.spectators.revisions == s.spectators.revisions &&
        r.0.spectators.relations ==
          (map v | v in before && !(before[v].host == account && before[v].expiresAt <= time) :: before[v]) &&
        forall v :: v in r.1.relations ==> v in before && r.1.relations[v] == before[v])
  {
    hide Registry.Valid, Membership.ValidChannels, History.ValidHistories, Board.ValidBoard, Agreement.ValidSpectators;
    hide Registry.StatusOf, Relations.Listable, Relations.Follows, Refreshed;
    var time, relations := Max(s.now, at), s.spectators.relations;
    Registry.StatusIsOwnership(cfg, s.registry, s.now, account, epoch, time);
    if ListSpectators(s, account, epoch, at).1.Watchers? {
      forall v | v in relations
        ensures var goes := v in ScoresOf(s.spectators.viewers, account) && Relations.Follows(relations, v, epoch) &&
            !Relations.Listable(relations, s.registry, time, account, epoch, v);
          goes <==> relations[v].host == account && relations[v].expiresAt <= time
      {
        SweptAway(cfg, s, account, time, v);
      }
    }
  }

  lemma SweptAway(cfg: Config, s: State, account: Account, time: Time, v: Account)
    requires Inv(cfg, s) && account in s.registry.epochs && v in s.spectators.relations && s.now <= time
    requires time < s.registry.epochs[account].expiresAt
    ensures var relations, epoch := s.spectators.relations, s.registry.epochs[account].epoch;
      (v in ScoresOf(s.spectators.viewers, account) && Relations.Follows(relations, v, epoch) &&
       !Relations.Listable(relations, s.registry, time, account, epoch, v)) <==>
      (relations[v].host == account && relations[v].expiresAt <= time)
  {
    hide Membership.ValidChannels, History.ValidHistories, Board.ValidBoard, Agreement.TidyViewers;
    var relation := s.spectators.relations[v];
    FollowsIsHost(cfg, s, account, v);
    assert Agreement.ValidRelation(s.registry.epochs, s.now, v, relation);
    assert Registry.EpochNamesSession(cfg, s.registry, s.now, v);
    assert Agreement.LiveScore(s.spectators.viewers, s.now, account, v) ==
      Agreement.Deadline(s.spectators.relations, account, v);
  }

  // ---------------------------------------------------------------- frames

  /**
   * A frame is published exactly by a present current epoch, within the size limit, until a time ahead and within
   * lease, presence and presence time, with a sequence number 1 to 32768 ahead on the circle of 65536 when the
   * history goes on. It gets the next cursor, no relation changes, and nobody else's frames change.
   */
  lemma PublishEffect(cfg: Config, s: State, account: Account, epoch: Epoch, sequence: nat, payload: string,
                      expiresAt: Time, reset: bool)
    requires Inv(cfg, s) && cfg.Valid()
    ensures var r := PublishFrame(cfg, s, account, epoch, sequence, payload, expiresAt, reset);
      var goesOn := !reset && account in s.histories.streams;
      (r.1.Published? <==>
        Owns(s.registry.epochs, account, epoch) && account in s.board.presence && |payload| <= cfg.maxBytes &&
        s.now < expiresAt <= s.now + cfg.presenceTtl && expiresAt <= s.registry.epochs[account].expiresAt &&
        expiresAt <= s.board.presence[account].expiresAt &&
        (goesOn ==>
          1 <= (sequence - s.histories.streams[account].sequence + 65536) % 65536 <= 32768 &&
          s.histories.streams[account].cursor != MAX_CURSOR)) &&
      (!r.1.Published? ==> r.0 == s) &&
      (r.1.Published? ==>
        r.1.cursor == (if goesOn then s.histories.streams[account].cursor + 1 else 1) &&
        account in r.0.histories.streams && r.0.histories.streams[account].cursor == r.1.cursor &&
        r.0.histories.streams[account].sequence == sequence && r.0.histories.streams[account].epoch == epoch &&
        r.0.histories.rings - {account} == s.histories.rings - {account} &&
        r.0.histories.streams - {account} == s.histories.streams - {account} &&
        r.0.spectators.relations == s.spectators.relations &&
        r.0 == s.(spectators := r.0.spectators, histories := r.0.histories))
  {
    hide Registry.Valid, Membership.ValidChannels, Agreement.ValidSpectators;
    hide Registry.StatusOf, Relations.Reachable, Relations.Named, Refreshed, Board.IndexMirrors, Ring.Carried;
    hide Ring.Evicted;
    hide Ring.Insert, Ring.Bytes, Ring.LatestExpiry, History.ValidRing;
    CurrentIsOwner(cfg, s, account, epoch);
    if Owns(s.registry.epochs, account, epoch) {
      forall v | v in s.spectators.relations
        ensures !(v in ScoresOf(s.spectators.viewers, account) &&
          Relations.Named(s.spectators.relations, account, epoch, v) &&
          !Relations.Reachable(s.spectators.relations, s.registry, s.now, account, epoch, v))
      {
        NamedIsReachable(cfg, s, account, v);
      }
    }
  }

  lemma NamedIsReachable(cfg: Config, s: State, account: Account, v: Account)
    requires Inv(cfg, s) && account in s.registry.epochs && v in s.spectators.relations
    ensures var relations, epoch := s.spectators.relations, s.registry.epochs[account].epoch;
      Relations.Named(relations, account, epoch, v) ==>
        Relations.Reachable(relations, s.registry, s.now, account, epoch, v)
  {
    hide Membership.ValidChannels, History.ValidHistories, Board.ValidBoard, Agreement.Mirrored, Agreement.TidyViewers;
    Agreement.ReachableWhenOwned(cfg, s.registry, s.now, s.spectators, account, v);
  }

  /** What a publication carries on is what the history holds unexpired, unless it begins anew. */
  lemma CarriedFrames(cfg: Config, s: State, account: Account, epoch: Epoch, reset: bool, f: Ring.Frame)
    requires Inv(cfg, s) && Owns(s.registry.epochs, account, epoch)
    ensures f in Ring.Carried(cfg, s.histories, account, epoch, reset, s.now) <==>
      !reset && f in Ring.FramesOf(s.histories, account) && s.now < f.expiresAt
  {
    hide Registry.Valid, Membership.ValidChannels, Agreement.ValidSpectators, Board.ValidBoard, Ring.Survivors;
    hide History.Increasing, History.UpTo, Ring.Bytes;
    History.SurvivorsMembers(Ring.FramesOf(s.histories, account), s.now, f);
    History.SurvivorsMembers([], s.now, f);
  }

  /**
   * A read succeeds exactly while the epoch's lease outlasts the asked time; it drops what has expired by then and
   * answers from the rest: the last frames, or the first ones past a cursor.
   */
  lemma ReadEffect(cfg: Config, s: State, account: Account, epoch: Epoch, at: Time, after: Option<nat>, limit: nat,
                   f: Ring.Frame)
    requires Inv(cfg, s)
    ensures var r := ReadFrames(cfg, s, account, epoch, at, after, limit); var time := Max(s.now, at);
      var frames := Ring.FramesOf(r.0.histories, account);
      (r.1.Frames? <==> Owns(s.registry.epochs, account, epoch) && time < s.registry.epochs[account].expiresAt) &&
      (!r.1.Frames? ==> r.0 == s) &&
      (r.1.Frames? ==>
        (f in frames <==> f in Ring.FramesOf(s.histories, account) && time < f.expiresAt) &&
        r.0 == s.(histories := r.0.histories) && r.0.histories.streams == s.histories.streams &&
        r.0.histories.rings - {account} == s.histories.rings - {account} &&
        r.1.window.oldest == (if frames == [] then None else Some(frames[0].cursor)) &&
        r.1.window.latest == (if frames == [] then None else Some(frames[|frames| - 1].cursor)) &&
        (after.None? ==>
          |r.1.window.frames| == Min(limit, |frames|) && (r.1.window.truncated <==> limit < |frames|) &&
          r.1.window.frames == frames[|frames| - |r.1.window.frames|..]) &&
        (after.Some? ==>
          (r.1.window.truncated <==> frames != [] && after.value + 1 < frames[0].cursor)))
  {
    hide Registry.Valid, Membership.ValidChannels, Agreement.ValidSpectators, Board.ValidBoard, Registry.StatusOf;
    hide Ring.Survivors, Ring.Bytes, Ring.LatestExpiry, Ring.FirstAfter, History.ValidRing;
    var time := Max(s.now, at);
    Registry.StatusIsOwnership(cfg, s.registry, s.now, account, epoch, time);
    History.PrunedKeeps(cfg, s.histories, s.registry.epochs, s.now, account, time);
    PrunedFrames(s.histories, account, time, f);
  }

  /** The frames a read returns past a cursor are the first that have greater cursors, up to the limit. */
  lemma {:induction false} ReadPastCursor(frames: seq<Ring.Frame>, after: nat, limit: nat) returns (i: nat)
    requires History.Increasing(frames)
    ensures i <= |frames| && Ring.FirstAfter(frames, after, limit) == frames[i..i + Min(limit, |frames| - i)]
    ensures forall k :: 0 <= k < |frames| ==> (frames[k].cursor > after <==> i <= k)
  {
    hide Ring.FirstAfter;
    if frames == [] {
      i := 0;
      Polling.NothingAfter(after, limit);
    } else if frames[0].cursor <= after {
      var rest := frames[1..];
      SkipsFirst(frames, after, limit);
      i := ReadPastCursor(rest, after, limit);
      assert rest[i..i + Min(limit, |rest| - i)] == frames[i + 1..i + 1 + Min(limit, |rest| - i)];
      assert forall k :: 0 < k < |frames| ==> frames[k] == rest[k - 1];
      i := i + 1;
    } else {
      i := 0;
      TakesPrefix(frames, after, limit);
    }
  }

  lemma SkipsFirst(frames: seq<Ring.Frame>, after: nat, limit: nat)
    requires frames != [] && frames[0].cursor <= after
    ensures Ring.FirstAfter(frames, after, limit) == Ring.FirstAfter(frames[1..], after, limit)
  {}

  lemma {:induction false} TakesPrefix(frames: seq<Ring.Frame>, after: nat, limit: nat)
    requires forall k :: 0 <= k < |frames| ==> frames[k].cursor > after
    ensures Ring.FirstAfter(frames, after, limit) == frames[..Min(limit, |frames|)]
  {
    if frames != [] && limit > 0 {
      TakesPrefix(frames[1..], after, limit - 1);
      assert frames[..Min(limit, |frames|)] == [frames[0]] + frames[1..][..Min(limit - 1, |frames| - 1)];
    }
  }

  // ---------------------------------------------------------------- time

  /** What ends by the new time is gone, and nothing else changes. */
  lemma AdvanceEffect(cfg: Config, s: State, time: Time, a: Account)
    requires Inv(cfg, s) && s.now < time
    ensures var after := RealtimeScripts.Advance(s, time);
      after.now == time &&
      (a in after.registry.epochs <==> a in s.registry.epochs && time < s.registry.epochs[a].expiresAt) &&
      (a in after.registry.epochs ==> after.registry.epochs[a] == s.registry.epochs[a]) &&
      (a in after.board.presence <==> a in s.board.presence && time < s.board.presence[a].expiresAt) &&
      (a in after.board.presence ==> after.board.presence[a] == s.board.presence[a]) &&
      (a in after.board.preferences <==> a in s.board.preferences && time < s.board.preferences[a].deadline) &&
      (a in after.spectators.relations <==>
        a in s.spectators.relations && time < s.spectators.relations[a].expiresAt) &&
      (a in after.spectators.relations ==> after.spectators.relations[a] == s.spectators.relations[a]) &&
      (a in after.spectators.revisions <==>
        a in s.spectators.revisions && time < s.spectators.revisions[a].deadline) &&
      (a in after.spectators.revisions ==> after.spectators.revisions[a] == s.spectators.revisions[a]) &&
      (a in after.histories.streams <==> a in s.histories.streams && time < s.histories.streams[a].deadline) &&
      (a in after.histories.rings <==> a in s.histories.rings && time < s.histories.rings[a].deadline) &&
      (a in after.histories.rings ==> after.histories.rings[a] == s.histories.rings[a])
  {
    hide Registry.Valid, Board.ValidBoard, Membership.ValidChannels, Agreement.ValidSpectators, History.ValidHistories;
  }
}
