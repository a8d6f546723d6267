/** The meaning of every realtime script: the reply and the next state of the whole store. */
module RealtimeScripts {
  import opened Basics
  import opened RealtimeTypes
  import Registry = SessionRegistry
  import Rosters = ChannelRosters
  import Relations = SpectatorRelations
  import Board = PresenceBoard
  import Ring = FrameRing

  datatype State = State(
    now: Time,
    registry: Registry.Registry,
    board: Board.Board,
    channels: Rosters.Channels,
    spectators: Relations.Spectators,
    histories: Ring.Histories)

  datatype Reply =
    | NotFound | Fenced | InvalidExpiry | RevisionOverflow | CapacityReached | Stale | LimitReached
    | HostNotFound | HostFenced | SelfAttach | Offline | NoRelation
    | FrameTooLarge | NonMonotonic | CursorOverflow | Corrupt
    | Done
    | Session(account: Account, epoch: Epoch, expiresAt: Time)
    | Members(accounts: set<Account>)
    | Attached(revision: nat, history: Ring.Window)
    | Watching(relation: Relations.Relation)
    | Watchers(relations: map<Account, Relations.Relation>)
    | Published(cursor: nat, recipients: map<Account, Relations.Relation>)
    | Frames(window: Ring.Window)

  function Initial(now: Time): State {
    State(now, Registry.Empty(), Board.NoPresence(), Rosters.NoChannels(), Relations.NoSpectators(), Ring.NoHistories())
  }

  /** Redis time moves on; keys past their deadline are gone. The clock never goes back. */
  function Advance(s: State, time: Time): State {
    if time <= s.now then s
    else State(time, Registry.Expire(s.registry, time), Board.ExpireBoard(s.board, time),
      Rosters.ExpireChannels(s.channels, time), Relations.ExpireSpectators(s.spectators, time),
      Ring.ExpireHistories(s.histories, time))
  }

  function Denial(status: Registry.Status): Reply
    requires !status.Current?
  {
    if status.NotFound? then NotFound else Fenced
  }

  function Status(s: State, account: Account, epoch: Epoch, at: Time): Registry.Status {
    Registry.StatusOf(s.registry, account, epoch, at)
  }

  // ---------------------------------------------------------------- sessions

  function Severed(s: State, account: Account): Relations.Spectators {
    var live := s.registry.epochs;
    Relations.Cleared(
      if account in live then Relations.Severed(s.spectators, s.now, account, live[account].epoch)
      else s.spectators, account)
  }

  function OpenSession(cfg: Config, s: State, account: Account, session: SessionId, requested: Time): (State, Reply) {
    match Registry.OpeningOf(cfg, s.registry, s.now, account, session, requested)
    case InvalidExpiry => (s, InvalidExpiry)
    case RevisionOverflow => (s, RevisionOverflow)
    case Refused => (s, Fenced)
    case Granted(revision, expiresAt) =>
      var epoch := Epoch(session, revision);
      (State(s.now, Registry.Open(cfg, s.registry, account, epoch, expiresAt),
         Board.ClearedBoard(s.board, s.now, account),
         Rosters.Reopened(s.channels, s.now, s.registry.epochs, account, session),
         Severed(s, account),
         Ring.ClearedHistory(s.histories, account)),
       Session(account, epoch, expiresAt))
  }

  function ResolveSession(s: State, session: SessionId, at: Time): Reply {
    if session !in s.registry.sessions || s.registry.sessions[session].expiresAt <= at then NotFound
    else
      var stored := s.registry.sessions[session];
      var epoch := Epoch(session, stored.revision);
      if !Owns(s.registry.epochs, stored.account, epoch) then Fenced
      else Session(stored.account, epoch, stored.expiresAt)
  }

  function HeartbeatSession(cfg: Config, s: State, account: Account, epoch: Epoch, requested: Time): (State, Reply) {
    var status := Status(s, account, epoch, s.now);
    if !status.Current? then (s, Denial(status))
    else if cfg.sessionTtl == 0 || requested <= s.now then (s, InvalidExpiry)
    else
      var expiresAt := Registry.Extended(s.now, cfg.sessionTtl, status.expiresAt, status.durable, requested);
      var registry := Registry.Extend(s.registry, account, epoch.session, expiresAt);
      var until := Min(expiresAt, s.now + cfg.presenceTtl);
      var own := Relations.RenewedOwn(s.spectators, registry, s.now, account, epoch, expiresAt);
      (State(s.now, registry,
         Board.RenewedPreference(Board.RenewedPresence(s.board, s.now, account, epoch, until), account, epoch,
           expiresAt),
         Rosters.Renewed(s.channels, s.now, account, epoch, expiresAt),
         Relations.RenewedViewers(own, registry, s.now, account, epoch, expiresAt),
         s.histories),
       Session(account, epoch, expiresAt))
  }

  function FenceSession(s: State, account: Account, epoch: Epoch): (State, Reply) {
    var status := Status(s, account, epoch, s.now);
    if !status.Current? then (s, Denial(status))
    else
      (State(s.now, Registry.Remove(s.registry, account, epoch.session),
         Board.ClearedBoard(s.board, s.now, account),
         Rosters.Fence(s.channels, s.now, account, epoch),
         Relations.Cleared(Relations.Severed(s.spectators, s.now, account, epoch), account),
         Ring.ClearedHistory(s.histories, account)),
       Done)
  }

  // ---------------------------------------------------------------- presence and preferences

  function SetPresence(cfg: Config, s: State, account: Account, epoch: Epoch, expiresAt: Time, state: string,
                       capacity: nat): (State, Reply) {
    var status := Status(s, account, epoch, s.now);
    if !status.Current? then (s, Denial(status))
    else if expiresAt <= s.now || expiresAt > status.expiresAt || expiresAt > s.now + cfg.presenceTtl then
      (s, InvalidExpiry)
    else if Board.Full(s.board, s.now, account, capacity) then
      (s.(board := Board.RefusedPresence(s.board, s.now)), CapacityReached)
    else
      (s.(board := Board.SetPresence(s.board, s.now, account, Board.Presence(epoch, expiresAt, state), capacity)), Done)
  }

  function ClearPresence(s: State, account: Account, epoch: Epoch): (State, Reply) {
    if !Board.PresentAs(s.board, account, epoch) then (s, Stale)
    else (s.(board := Board.ClearedPresence(s.board, s.now, account)), Done)
  }

  function SetPreference(s: State, account: Account, epoch: Epoch, field: string, value: string): (State, Reply) {
    var status := Status(s, account, epoch, s.now);
    if !status.Current? then (s, Denial(status))
    else (s.(board := Board.SetPreference(s.board, account, epoch, status.expiresAt, field, value)), Done)
  }

  // ---------------------------------------------------------------- channels

  function JoinChannel(cfg: Config, s: State, account: Account, epoch: Epoch, channel: ChannelId): (State, Reply) {
    var status := Status(s, account, epoch, s.now);
    if !status.Current? then (s, Denial(status))
    else if Rosters.AtLimit(cfg, s.channels, epoch.session, channel) then (s, LimitReached)
    else (s.(channels := Rosters.Join(s.channels, s.now, account, epoch, status.expiresAt, channel)), Done)
  }

  function LeaveChannel(s: State, account: Account, epoch: Epoch, channel: ChannelId): (State, Reply) {
    var status := Status(s, account, epoch, s.now);
    if !status.Current? then (s, Denial(status))
    else (s.(channels := Rosters.Leave(s.channels, s.now, account, epoch, channel)), Done)
  }

  function ListChannel(s: State, channel: ChannelId): (State, Reply) {
    (s.(channels := Rosters.Listed(s.registry, s.channels, s.now, channel)),
     Members(Rosters.ActiveMembers(s.registry, s.channels, s.now, channel)))
  }

  // ---------------------------------------------------------------- spectators

  /** The host's presence, when it belongs to the epoch and lies ahead. */
  function PresenceUntil(s: State, account: Account, epoch: Epoch): Option<Time> {
    if Board.PresentAs(s.board, account, epoch) && s.board.presence[account].expiresAt > s.now
    then Some(s.board.presence[account].expiresAt) else None
  }

  function AttachSpectator(cfg: Config, s: State, request: Relations.Relation, historyLimit: nat): (State, Reply) {
    if request.host == request.spectator then (s, SelfAttach)
    else
      var host := Status(s, request.host, request.hostEpoch, s.now);
      var spectator := Status(s, request.spectator, request.spectatorEpoch, s.now);
      var presence := PresenceUntil(s, request.host, request.hostEpoch);
      if !host.Current? then (s, if host.NotFound? then HostNotFound else HostFenced)
      else if !spectator.Current? then (s, Denial(spectator))
      else if presence.None? then (s, Offline)
      else if request.expiresAt <= s.now ||
        request.expiresAt > Min(host.expiresAt, Min(spectator.expiresAt, presence.value)) ||
        request.expiresAt > s.now + cfg.presenceTtl then (s, InvalidExpiry)
      else if Relations.ViewerLimit(cfg, s.spectators, request.host, request.spectator) then (s, LimitReached)
      else if Relations.RelationRevision(s.spectators, request.spectator) == MAX_REVISION then (s, RevisionOverflow)
      else
        var revision := Relations.RelationRevision(s.spectators, request.spectator) + 1;
        var histories := Ring.AttachPruned(cfg, s.histories, request.host, s.now);
        (s.(spectators := Relations.Attach(s.spectators, s.now, request.(revision := revision), spectator.expiresAt),
            histories := histories),
         Attached(revision, Ring.LatestWindow(Ring.FramesOf(histories, request.host), historyLimit)))
  }

  predicate Matches(s: State, expected: Relations.Relation) {
    expected.spectator in s.spectators.relations &&
    s.spectators.relations[expected.spectator].(expiresAt := expected.expiresAt) == expected
  }

  function DetachSpectator(s: State, expected: Relations.Relation): (State, Reply) {
    if !Matches(s, expected) then (s, Stale)
    else (s.(spectators := Relations.Detach(s.spectators, s.now, expected.host, expected.spectator)), Done)
  }

  function GetSpectator(s: State, account: Account, epoch: Epoch, at: Time): (State, Reply) {
    var time := Max(s.now, at);
    var status := Status(s, account, epoch, time);
    if !status.Current? then (s, Denial(status))
    else if account !in s.spectators.relations then (s, NoRelation)
    else
      var relation := s.spectators.relations[account];
      if Relations.Visible(s.registry, relation, epoch, time) then (s, Watching(relation))
      else (s.(spectators := Relations.Detach(s.spectators, s.now, relation.host, account)), NoRelation)
  }

  function ListSpectators(s: State, account: Account, epoch: Epoch, at: Time): (State, Reply) {
    var time := Max(s.now, at);
    var status := Status(s, account, epoch, time);
    if !status.Current? then (s, Denial(status))
    else
      var relations := s.spectators.relations;
      var keep := v => Relations.Listable(relations, s.registry, time, account, epoch, v);
      (s.(spectators := Relations.Swept(s.spectators, s.now, account, keep,
         v => Relations.Follows(relations, v, epoch))),
       Watchers(Relations.ListedRelations(s.spectators, account, keep)))
  }

  // ---------------------------------------------------------------- frames

  function PublishFrame(cfg: Config, s: State, account: Account, epoch: Epoch, sequence: nat, payload: string,
                        expiresAt: Time, reset: bool): (State, Reply) {
    var status := Status(s, account, epoch, s.now);
    var presence := PresenceUntil(s, account, epoch);
    var stream := Ring.StreamFor(s.histories, account, epoch, reset);
    if !status.Current? then (s, Denial(status))
    else if presence.None? then (s, Offline)
    else if |payload| > cfg.maxBytes then (s, FrameTooLarge)
    else if expiresAt <= s.now || expiresAt > Min(status.expiresAt, presence.value) ||
      expiresAt > s.now + cfg.presenceTtl then
      (s, InvalidExpiry)
    else if stream.Some? && Ring.NonMonotonic(stream.value.sequence, sequence) then (s, NonMonotonic)
    else if stream.Some? && stream.value.cursor == MAX_CURSOR then (s, CursorOverflow)
    else
      var frame := Ring.Frame(Ring.NextCursor(stream), expiresAt, sequence, payload);
      var relations := s.spectators.relations;
      var keep := v => Relations.Reachable(relations, s.registry, s.now, account, epoch, v);
      (s.(spectators := Relations.Swept(s.spectators, s.now, account, keep,
            v => Relations.Named(relations, account, epoch, v)),
          histories := Ring.Published(cfg, s.histories, account, epoch, s.now, frame, reset)),
       Published(frame.cursor, Relations.ListedRelations(s.spectators, account, keep)))
  }

  function ReadFrames(cfg: Config, s: State, account: Account, epoch: Epoch, at: Time, after: Option<nat>,
                      limit: nat): (State, Reply) {
    var time := Max(s.now, at);
    var status := Status(s, account, epoch, time);
    if !status.Current? then (s, Denial(status))
    else if account in s.histories.streams && s.histories.streams[account].epoch != epoch then (s, Fenced)
    else if |Ring.FramesOf(s.histories, account)| > cfg.maxFrames then (s, Corrupt)
    else
      var histories := Ring.Pruned(s.histories, account, time);
      var frames := Ring.FramesOf(histories, account);
      (s.(histories := histories),
       Frames(if after.None? then Ring.LatestWindow(frames, limit) else Ring.WindowAfter(frames, after.value, limit)))
  }
}
