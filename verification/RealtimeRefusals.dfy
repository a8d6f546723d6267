/** Which refusal each script answers with, when it refuses. */
module RealtimeRefusals {
  import opened Basics
  import opened RealtimeTypes
  import Registry = SessionRegistry
  import Membership = ChannelMembership
  import Relations = SpectatorRelations
  import Agreement = SpectatorAgreement
  import Board = PresenceBoard
  import History = FrameHistory
  import opened RealtimeScripts
  import opened RealtimeRuns
  import opened RealtimeEffects

  /** Fenced by the account's other epoch or by the session's other account, and otherwise not found. */
  function Refusal(s: State, account: Account, epoch: Epoch, at: Time): Reply {
    var live, sessions := s.registry.epochs, s.registry.sessions;
    if account in live then (if live[account].epoch != epoch then Fenced else NotFound)
    else if epoch.session in sessions && at < sessions[epoch.session].expiresAt then Fenced
    else NotFound
  }

  lemma DenialIs(cfg: Config, s: State, account: Account, epoch: Epoch, at: Time)
    requires Inv(cfg, s) && s.now <= at
    ensures var status, live := Status(s, account, epoch, at), s.registry.epochs;
      if Owns(live, account, epoch) && at < live[account].expiresAt then
        status.Current? && status.expiresAt == live[account].expiresAt
      else !status.Current? && Denial(status) == Refusal(s, account, epoch, at)
  {
    hide Registry.StatusOf, Registry.Valid, Board.ValidBoard, Membership.ValidChannels, Agreement.ValidSpectators;
    hide History.ValidHistories;
    Registry.StatusIsOwnership(cfg, s.registry, s.now, account, epoch, at);
    Registry.RefusalIsExact(cfg, s.registry, s.now, account, epoch, at);
  }

  lemma OpenRefusal(cfg: Config, s: State, account: Account, session: SessionId, requested: Time)
    requires cfg.Valid()
    ensures var reply := OpenSession(cfg, s, account, session, requested).1; var q := s.registry;
      !reply.Session? ==>
        reply ==
          if requested <= s.now || requested > cfg.durable(session) then InvalidExpiry
          else if session in q.counters && q.counters[session].value == MAX_REVISION then RevisionOverflow
          else Fenced
  {}

  lemma HeartbeatRefusal(cfg: Config, s: State, account: Account, epoch: Epoch, requested: Time)
    requires Inv(cfg, s) && cfg.Valid()
    ensures var reply := HeartbeatSession(cfg, s, account, epoch, requested).1;
      !reply.Session? ==>
        reply ==
          if Owns(s.registry.epochs, account, epoch) then InvalidExpiry else Refusal(s, account, epoch, s.now)
  {
    hide Inv, Registry.StatusOf, Refusal, Denial;
    DenialIs(cfg, s, account, epoch, s.now);
    CurrentIsOwner(cfg, s, account, epoch);
  }

  /** Scripts that only need the epoch to be current, at the clock or at a later asked time. */
  lemma PlainRefusals(cfg: Config, s: State, account: Account, epoch: Epoch, at: Time, c: ChannelId, field: string,
                      value: string, after: Option<nat>, limit: nat)
    requires Inv(cfg, s)
    ensures var live := s.registry.epochs;
      !Owns(live, account, epoch) ==>
        FenceSession(s, account, epoch).1 == Refusal(s, account, epoch, s.now) &&
        SetPreference(s, account, epoch, field, value).1 == Refusal(s, account, epoch, s.now) &&
        JoinChannel(cfg, s, account, epoch, c).1 == Refusal(s, account, epoch, s.now) &&
        LeaveChannel(s, account, epoch, c).1 == Refusal(s, account, epoch, s.now)
    ensures var live, time := s.registry.epochs, Max(s.now, at);
      !(Owns(live, account, epoch) && time < live[account].expiresAt) ==>
        GetSpectator(s, account, epoch, at).1 == Refusal(s, account, epoch, time) &&
        ListSpectators(s, account, epoch, at).1 == Refusal(s, account, epoch, time) &&
        ReadFrames(cfg, s, account, epoch, at, after, limit).1 == Refusal(s, account, epoch, time)
    ensures Owns(s.registry.epochs, account, epoch) ==>
      JoinChannel(cfg, s, account, epoch, c).1 in {Done, LimitReached}
  {
    hide Inv, Registry.StatusOf, Refusal, Denial;
    DenialIs(cfg, s, account, epoch, s.now);
    DenialIs(cfg, s, account, epoch, Max(s.now, at));
    CurrentIsOwner(cfg, s, account, epoch);
  }

  lemma AppearRefusal(cfg: Config, s: State, account: Account, epoch: Epoch, expiresAt: Time, state: string,
                      capacity: nat)
    requires Inv(cfg, s)
    ensures var reply := SetPresence(cfg, s, account, epoch, expiresAt, state, capacity).1;
      var live := s.registry.epochs;
      !reply.Done? ==>
        reply ==
          if !Owns(live, account, epoch) then Refusal(s, account, epoch, s.now)
          else if expiresAt <= s.now || expiresAt > live[account].expiresAt || expiresAt > s.now + cfg.presenceTtl then
            InvalidExpiry
          else CapacityReached
  {
    hide Inv, Registry.StatusOf, Refusal, Denial, Board.Full;
    DenialIs(cfg, s, account, epoch, s.now);
    CurrentIsOwner(cfg, s, account, epoch);
  }

  /** Refusals to attach come in this order. */
  lemma AttachRefusal(cfg: Config, s: State, request: Relations.Relation, limit: nat)
    requires Inv(cfg, s)
    ensures var reply := AttachSpectator(cfg, s, request, limit).1; var live, sp := s.registry.epochs, s.spectators;
      !reply.Attached? ==>
        reply ==
          if request.host == request.spectator then SelfAttach
          else if !Owns(live, request.host, request.hostEpoch) then
            (if Refusal(s, request.host, request.hostEpoch, s.now) == Fenced then HostFenced else HostNotFound)
          else if !Owns(live, request.spectator, request.spectatorEpoch) then
            Refusal(s, request.spectator, request.spectatorEpoch, s.now)
          else if request.host !in s.board.presence then Offline
          else if request.expiresAt <= s.now || request.expiresAt > s.now + cfg.presenceTtl ||
            request.expiresAt > live[request.host].expiresAt || request.expiresAt > live[request.spectator].expiresAt ||
            request.expiresAt > s.board.presence[request.host].expiresAt then InvalidExpiry
          else if request.spectator !in ScoresOf(sp.viewers, request.host) &&
            |ScoresOf(sp.viewers, request.host)| >= cfg.maxViewers then LimitReached
          else RevisionOverflow
  {
    hide Registry.StatusOf, Refusal, Registry.Valid, Membership.ValidChannels, Agreement.ValidSpectators;
    hide History.ValidHistories, Board.IndexMirrors;
    DenialIs(cfg, s, request.host, request.hostEpoch, s.now);
    DenialIs(cfg, s, request.spectator, request.spectatorEpoch, s.now);
    CurrentIsOwner(cfg, s, request.host, request.hostEpoch);
    CurrentIsOwner(cfg, s, request.spectator, request.spectatorEpoch);
  }

  /** Refusals to publish come in this order. */
  lemma PublishRefusal(cfg: Config, s: State, account: Account, epoch: Epoch, sequence: nat, payload: string,
                       expiresAt: Time, reset: bool)
    requires Inv(cfg, s)
    ensures var reply := PublishFrame(cfg, s, account, epoch, sequence, payload, expiresAt, reset).1;
      var live, goesOn := s.registry.epochs, !reset && account in s.histories.streams;
      !reply.Published? ==>
        reply ==
          if !Owns(live, account, epoch) then Refusal(s, account, epoch, s.now)
          else if account !in s.board.presence then Offline
          else if |payload| > cfg.maxBytes then FrameTooLarge
          else if expiresAt <= s.now || expiresAt > s.now + cfg.presenceTtl || expiresAt > live[account].expiresAt ||
            expiresAt > s.board.presence[account].expiresAt then InvalidExpiry
          else if goesOn && !(1 <= (sequence - s.histories.streams[account].sequence + 65536) % 65536 <= 32768) then
            NonMonotonic
          else CursorOverflow
  {
    hide Registry.StatusOf, Refusal, Registry.Valid, Membership.ValidChannels, Agreement.ValidSpectators;
    hide Board.IndexMirrors, History.ValidRing;
    DenialIs(cfg, s, account, epoch, s.now);
    CurrentIsOwner(cfg, s, account, epoch);
  }
}
