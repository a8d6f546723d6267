/** The store itself: one method per script, each doing exactly what its meaning says and keeping the invariant. */
module RealtimeStore {
  import opened Basics
  import opened RealtimeTypes
  import Registry = SessionRegistry
  import Rosters = ChannelRosters
  import Relations = SpectatorRelations
  import Board = PresenceBoard
  import Ring = FrameRing
  import Membership = ChannelMembership
  import Scripts = RealtimeScripts
  import Runs = RealtimeRuns
  import Effects = RealtimeEffects
  import Renewals = RealtimeRenewals

  class Store {
    const cfg: Config
    var now: Time
    var registry: Registry.Registry
    var board: Board.Board
    var channels: Rosters.Channels
    var spectators: Relations.Spectators
    var histories: Ring.Histories

    ghost function Contents(): Scripts.State
      reads this
    {
      Scripts.State(now, registry, board, channels, spectators, histories)
    }

    /** Everything belongs to current epochs, and the keys that mirror one another agree. */
    ghost predicate Valid()
      reads this
    {
      cfg.Valid() && Runs.Inv(cfg, Contents())
    }

    constructor (cfg: Config, now: Time)
      requires cfg.Valid()
      ensures Valid() && this.cfg == cfg && Contents() == Scripts.Initial(now)
    {
      this.cfg, this.now := cfg, now;
      registry, board, channels := Registry.Empty(), Board.NoPresence(), Rosters.NoChannels();
      spectators, histories := Relations.NoSpectators(), Ring.NoHistories();
      new;
      Runs.InitialIsValid(cfg, now);
    }

    /** The repository refuses limits and times to live that are not positive. */
    static method Create(cfg: Config, now: Time) returns (store: Option<Store>)
      ensures store.Some? <==> cfg.Valid()
      ensures store.None? <==>
        0 in {cfg.sessionTtl, cfg.presenceTtl, cfg.maxFrames, cfg.maxBytes, cfg.maxChannels, cfg.maxViewers}
      ensures store.Some? ==>
        fresh(store.value) && store.value.Valid() && store.value.Contents() == Scripts.Initial(now)
    {
      if !cfg.Valid() { return None; }
      var made := new Store(cfg, now);
      store := Some(made);
    }

    method Advance(time: Time)
      modifies this
      ensures Contents() == Scripts.Advance(old(Contents()), time)
      ensures old(Valid()) ==> Valid()
    {
      hide Runs.Inv;
      if Valid() { Runs.AdvanceKeeps(cfg, Contents(), time); }
      if time > now {
        now := time;
        registry, board := Registry.Expire(registry, time), Board.ExpireBoard(board, time);
        channels, spectators := Rosters.ExpireChannels(channels, time), Relations.ExpireSpectators(spectators, time);
        histories := Ring.ExpireHistories(histories, time);
      }
    }

    // -------------------------------------------------------------- sessions

    /** Cuts both spectator directions of an epoch. */
    method Sever(account: Account, epoch: Epoch)
      modifies this`spectators
      ensures spectators == Relations.Severed(old(spectators), now, account, epoch)
    {
      hide Relations.WithoutViewer, Relations.Unfollowed;
      if account in spectators.relations && spectators.relations[account].spectatorEpoch == epoch {
        var host := spectators.relations[account].host;
        spectators := spectators.(
          viewers := Relations.WithoutViewer(spectators.viewers, now, host, account),
          relations := spectators.relations - {account});
      }
      var left := Relations.Unfollow(spectators.relations, ScoresOf(spectators.viewers, account).Keys, epoch);
      spectators := spectators.(relations := left);
    }

    method OpenSession(account: Account, session: SessionId, requested: Time) returns (reply: Scripts.Reply)
      modifies this
      ensures (Contents(), reply) == Scripts.OpenSession(cfg, old(Contents()), account, session, requested)
      ensures old(Valid()) ==> Valid()
    {
      hide Runs.Inv;
      if Valid() { Runs.OpenKeeps(cfg, Contents(), account, session, requested); }
      hide Relations.Severed, Rosters.LeftAll, Board.ClearedBoard, Registry.OpeningOf;
      var opening := Registry.OpeningOf(cfg, registry, now, account, session, requested);
      match opening {
        case InvalidExpiry => return Scripts.InvalidExpiry;
        case RevisionOverflow => return Scripts.RevisionOverflow;
        case Refused => return Scripts.Fenced;
        case Granted(revision, expiresAt) =>
          if account in registry.epochs {
            var last := registry.epochs[account].epoch;
            var left := Rosters.LeaveAll(channels.rosters, now, account, last, Rosters.IdsOf(channels, last.session));
            channels := Rosters.Channels(left, channels.joined - {last.session});
            Sever(account, last);
          }
          board := Board.ClearedBoard(board, now, account);
          channels := channels.(joined := channels.joined - {session});
          spectators := Relations.Cleared(spectators, account);
          histories := Ring.ClearedHistory(histories, account);
          var epoch := Epoch(session, revision);
          registry := Registry.Open(cfg, registry, account, epoch, expiresAt);
          reply := Scripts.Session(account, epoch, expiresAt);
      }
    }

    method ResolveSession(session: SessionId, at: Time) returns (reply: Scripts.Reply)
      ensures reply == Scripts.ResolveSession(Contents(), session, at)
      ensures Valid() ==> (reply.Session? || reply.NotFound?)
      ensures Valid() ==>
        (reply.Session? ==>
           reply.epoch.session == session && Owns(registry.epochs, reply.account, reply.epoch) &&
           reply.expiresAt == registry.epochs[reply.account].expiresAt > at)
      ensures Valid() ==>
        (var live := registry.epochs;
           forall a :: a in live && live[a].epoch.session == session && live[a].expiresAt > at ==>
             reply == Scripts.Session(a, live[a].epoch, live[a].expiresAt))
    {
      hide Runs.Inv;
      if Valid() { Effects.ResolveIsExact(cfg, Contents(), session, at); }
      if session !in registry.sessions || registry.sessions[session].expiresAt <= at { return Scripts.NotFound; }
      var stored := registry.sessions[session];
      var epoch := Epoch(session, stored.revision);
      if !Owns(registry.epochs, stored.account, epoch) { return Scripts.Fenced; }
      reply := Scripts.Session(stored.account, epoch, stored.expiresAt);
    }

    method RenewChannels(account: Account, epoch: Epoch, expiresAt: Time)
      modifies this`channels
      ensures channels == Rosters.Renewed(old(channels), now, account, epoch, expiresAt)
    {
      hide Rosters.RenewedAll, Rosters.Listing;
      var rosters, kept := Rosters.RenewAll(channels.rosters, now, account, epoch,
        Rosters.IdsOf(channels, epoch.session), expiresAt);
      channels := Rosters.Channels(rosters,
        if kept == {} then channels.joined - {epoch.session}
        else channels.joined[epoch.session := Rosters.Joined(kept, expiresAt)]);
    }

    method HeartbeatSession(account: Account, epoch: Epoch, requested: Time) returns (reply: Scripts.Reply)
      modifies this
      ensures (Contents(), reply) == Scripts.HeartbeatSession(cfg, old(Contents()), account, epoch, requested)
      ensures old(Valid()) ==> Valid()
      ensures old(Valid()) ==> (reply.Session? <==> Owns(old(registry).epochs, account, epoch) && requested > now)
      ensures old(Valid()) && reply.Session? ==>
        registry.epochs == old(registry).epochs[account := Lease(epoch, reply.expiresAt)]
      ensures old(Valid()) && reply.Session? && account in old(board).presence ==>
        var presence := old(board).presence[account].(expiresAt := Min(reply.expiresAt, now + cfg.presenceTtl));
        board.presence == old(board).presence[account := presence]
    {
      hide Runs.Inv, Scripts.HeartbeatSession;
      if Valid() {
        Runs.HeartbeatKeeps(cfg, Contents(), account, epoch, requested);
        Renewals.HeartbeatLease(cfg, Contents(), account, epoch, requested);
        if Scripts.HeartbeatSession(cfg, Contents(), account, epoch, requested).1.Session? {
          Renewals.HeartbeatBoard(cfg, Contents(), account, epoch, requested);
        }
      }
      reply := RenewSession(account, epoch, requested);
    }

    /** The heartbeat itself: lease, presence, preference, channels and both spectator directions. */
    method RenewSession(account: Account, epoch: Epoch, requested: Time) returns (reply: Scripts.Reply)
      modifies this
      ensures (Contents(), reply) == Scripts.HeartbeatSession(cfg, old(Contents()), account, epoch, requested)
    {
      hide Relations.RenewedOwn, Relations.RenewedViewers, Rosters.Renewed, Registry.Extended, Registry.StatusOf;
      hide Board.RenewedPresence, Board.RenewedPreference;
      var status := Registry.StatusOf(registry, account, epoch, now);
      if !status.Current? { return Scripts.Denial(status); }
      if cfg.sessionTtl == 0 || requested <= now { return Scripts.InvalidExpiry; }
      var expiresAt := Registry.Extended(now, cfg.sessionTtl, status.expiresAt, status.durable, requested);
      Registry.CurrentIsStored(registry, account, epoch, now);
      registry := Registry.Extend(registry, account, epoch.session, expiresAt);
      board := Board.RenewedPresence(board, now, account, epoch, Min(expiresAt, now + cfg.presenceTtl));
      board := Board.RenewedPreference(board, account, epoch, expiresAt);
      RenewChannels(account, epoch, expiresAt);
      spectators := Relations.RenewedOwn(spectators, registry, now, account, epoch, expiresAt);
      spectators := Relations.RenewViewers(spectators, registry, now, account, epoch, expiresAt);
      reply := Scripts.Session(account, epoch, expiresAt);
    }

    method FenceSession(account: Account, epoch: Epoch) returns (reply: Scripts.Reply)
      modifies this
      ensures (Contents(), reply) == Scripts.FenceSession(old(Contents()), account, epoch)
      ensures old(Valid()) ==> Valid()
    {
      hide Runs.Inv;
      if Valid() { Runs.FenceKeeps(cfg, Contents(), account, epoch); }
      hide Relations.Severed, Rosters.LeftAll, Board.ClearedBoard;
      var status := Registry.StatusOf(registry, account, epoch, now);
      if !status.Current? { return Scripts.Denial(status); }
      var left := Rosters.LeaveAll(channels.rosters, now, account, epoch, Rosters.IdsOf(channels, epoch.session));
      channels := Rosters.Channels(left, channels.joined - {epoch.session});
      Sever(account, epoch);
      spectators := Relations.Cleared(spectators, account);
      registry := Registry.Remove(registry, account, epoch.session);
      board := Board.ClearedBoard(board, now, account);
      histories := Ring.ClearedHistory(histories, account);
      reply := Scripts.Done;
    }

    // -------------------------------------------------------------- presence and preferences

    method SetPresence(account: Account, epoch: Epoch, expiresAt: Time, state: string, capacity: nat)
      returns (reply: Scripts.Reply)
      modifies this`board
      ensures (Contents(), reply) ==
        Scripts.SetPresence(cfg, old(Contents()), account, epoch, expiresAt, state, capacity)
      ensures old(Valid()) ==> Valid()
    {
      hide Runs.Inv;
      if Valid() { Runs.StepKeeps(cfg, Contents(), Runs.Appear(account, epoch, expiresAt, state, capacity)); }
      var status := Registry.StatusOf(registry, account, epoch, now);
      if !status.Current? { return Scripts.Denial(status); }
      if expiresAt <= now || expiresAt > status.expiresAt || expiresAt > now + cfg.presenceTtl {
        return Scripts.InvalidExpiry;
      }
      var index := Board.IndexOf(board);
      if capacity > 0 {
        index := Board.Ahead(index, now);
        if account !in index && |index.Keys| >= capacity {
          board := board.(index := Refreshed(now, index));
          return Scripts.CapacityReached;
        }
      }
      board := board.(presence := board.presence[account := Board.Presence(epoch, expiresAt, state)],
                      index := Refreshed(now, index[account := expiresAt]));
      reply := Scripts.Done;
    }

    method ClearPresence(account: Account, epoch: Epoch) returns (reply: Scripts.Reply)
      modifies this`board
      ensures (Contents(), reply) == Scripts.ClearPresence(old(Contents()), account, epoch)
      ensures old(Valid()) ==> Valid()
      ensures old(Valid()) ==>
        (reply.Done? <==> account in old(board).presence && Owns(registry.epochs, account, epoch))
      ensures old(Valid()) ==>
        (board.presence.Keys ==
           if reply.Done? then old(board).presence.Keys - {account} else old(board).presence.Keys)
      ensures old(Valid()) ==> Board.Ahead(Board.IndexOf(board), now).Keys == board.presence.Keys
    {
      hide Runs.Inv;
      if Valid() {
        Runs.StepKeeps(cfg, Contents(), Runs.Disappear(account, epoch));
        Effects.ClearEffect(cfg, Contents(), account, epoch);
      }
      if !Board.PresentAs(board, account, epoch) { return Scripts.Stale; }
      board := board.(presence := board.presence - {account});
      board := board.(index := Refreshed(now, Board.IndexOf(board) - {account}));
      reply := Scripts.Done;
    }

    method SetPreference(account: Account, epoch: Epoch, field: string, value: string) returns (reply: Scripts.Reply)
      modifies this`board
      ensures (Contents(), reply) == Scripts.SetPreference(old(Contents()), account, epoch, field, value)
      ensures old(Valid()) ==> Valid()
      ensures old(Valid()) ==> (reply.Done? <==> Owns(registry.epochs, account, epoch))
      ensures old(Valid()) ==>
        (reply.Done? ==>
           account in board.preferences && board.preferences[account].epoch == epoch &&
           board.preferences[account].deadline == registry.epochs[account].expiresAt &&
           field in board.preferences[account].fields && board.preferences[account].fields[field] == value &&
           (account in old(board).preferences ==> old(board).preferences[account].epoch == epoch))
    {
      hide Runs.Inv;
      if Valid() {
        Runs.StepKeeps(cfg, Contents(), Runs.Prefer(account, epoch, field, value));
        Effects.PreferEffect(cfg, Contents(), account, epoch, field, value);
      }
      var status := Registry.StatusOf(registry, account, epoch, now);
      if !status.Current? { return Scripts.Denial(status); }
      board := Board.SetPreference(board, account, epoch, status.expiresAt, field, value);
      reply := Scripts.Done;
    }

    // -------------------------------------------------------------- channels

    method JoinChannel(account: Account, epoch: Epoch, channel: ChannelId) returns (reply: Scripts.Reply)
      modifies this`channels
      ensures (Contents(), reply) == Scripts.JoinChannel(cfg, old(Contents()), account, epoch, channel)
      ensures old(Valid()) ==> Valid()
      ensures old(Valid()) ==>
        (reply.Done? <==>
           Owns(registry.epochs, account, epoch) &&
           (Membership.IsMember(registry, old(channels), channel, account) ||
            |Rosters.IdsOf(old(channels), epoch.session)| < cfg.maxChannels))
      ensures old(Valid()) ==>
        (forall c, a :: Membership.IsMember(registry, channels, c, a) <==>
           Membership.IsMember(registry, old(channels), c, a) || (reply.Done? && c == channel && a == account))
    {
      hide Runs.Inv;
      if Valid() {
        Runs.StepKeeps(cfg, Contents(), Runs.Join(account, epoch, channel));
        Effects.JoinEffect(cfg, Contents(), account, epoch, channel);
      }
      var status := Registry.StatusOf(registry, account, epoch, now);
      if !status.Current? { return Scripts.Denial(status); }
      if Rosters.AtLimit(cfg, channels, epoch.session, channel) { return Scripts.LimitReached; }
      channels := Rosters.Join(channels, now, account, epoch, status.expiresAt, channel);
      reply := Scripts.Done;
    }

    method LeaveChannel(account: Account, epoch: Epoch, channel: ChannelId) returns (reply: Scripts.Reply)
      modifies this`channels
      ensures (Contents(), reply) == Scripts.LeaveChannel(old(Contents()), account, epoch, channel)
      ensures old(Valid()) ==> Valid()
      ensures old(Valid()) ==> (reply.Done? <==> Owns(registry.epochs, account, epoch))
      ensures old(Valid()) ==>
        (forall c, a :: Membership.IsMember(registry, channels, c, a) <==>
           Membership.IsMember(registry, old(channels), c, a) && !(reply.Done? && c == channel && a == account))
    {
      hide Runs.Inv;
      if Valid() {
        Runs.StepKeeps(cfg, Contents(), Runs.Leave(account, epoch, channel));
        Effects.LeaveEffect(cfg, Contents(), account, epoch, channel);
      }
      var status := Registry.StatusOf(registry, account, epoch, now);
      if !status.Current? { return Scripts.Denial(status); }
      channels := Rosters.Leave(channels, now, account, epoch, channel);
      reply := Scripts.Done;
    }

    method ListChannel(channel: ChannelId) returns (reply: Scripts.Reply)
      modifies this`channels
      ensures (Contents(), reply) == Scripts.ListChannel(old(Contents()), channel)
      ensures old(Valid()) ==> Valid()
      ensures old(Valid()) ==>
        (reply.Members? &&
           forall a :: a in reply.accounts <==> Membership.IsMember(registry, old(channels), channel, a))
    {
      hide Runs.Inv;
      if Valid() {
        Runs.StepKeeps(cfg, Contents(), Runs.List(channel));
        Effects.ListIsExact(cfg, Contents(), channel);
      }
      hide Rosters.Listed, Rosters.ActiveMembers;
      var after, accounts := Rosters.List(registry, channels, now, channel);
      channels := after;
      reply := Scripts.Members(accounts);
    }

    // -------------------------------------------------------------- spectators

    method AttachSpectator(request: Relations.Relation, historyLimit: nat) returns (reply: Scripts.Reply)
      modifies this`spectators, this`histories
      ensures (Contents(), reply) == Scripts.AttachSpectator(cfg, old(Contents()), request, historyLimit)
      ensures old(Valid()) ==> Valid()
    {
      hide Runs.Inv;
      if Valid() { Runs.AttachKeeps(cfg, Contents(), request, historyLimit); }
      hide Relations.Attach, Ring.AttachPruned, Ring.LatestWindow, Relations.ViewerLimit;
      if request.host == request.spectator { return Scripts.SelfAttach; }
      var host := Registry.StatusOf(registry, request.host, request.hostEpoch, now);
      if !host.Current? { return if host.NotFound? then Scripts.HostNotFound else Scripts.HostFenced; }
      var spectator := Registry.StatusOf(registry, request.spectator, request.spectatorEpoch, now);
      if !spectator.Current? { return Scripts.Denial(spectator); }
      if !Board.PresentAs(board, request.host, request.hostEpoch) || board.presence[request.host].expiresAt <= now {
        return Scripts.Offline;
      }
      var limit := Min(host.expiresAt, Min(spectator.expiresAt, board.presence[request.host].expiresAt));
      if request.expiresAt <= now || request.expiresAt > limit || request.expiresAt > now + cfg.presenceTtl {
        return Scripts.InvalidExpiry;
      }
      if Relations.ViewerLimit(cfg, spectators, request.host, request.spectator) { return Scripts.LimitReached; }
      var revision := Relations.RelationRevision(spectators, request.spectator);
      if revision == MAX_REVISION { return Scripts.RevisionOverflow; }
      spectators := Relations.Attach(spectators, now, request.(revision := revision + 1), spectator.expiresAt);
      histories := Ring.AttachPrune(cfg, histories, request.host, now);
      reply := Scripts.Attached(revision + 1, Ring.LatestWindow(Ring.FramesOf(histories, request.host), historyLimit));
    }

    method DetachSpectator(expected: Relations.Relation) returns (reply: Scripts.Reply)
      modifies this`spectators
      ensures (Contents(), reply) == Scripts.DetachSpectator(old(Contents()), expected)
      ensures old(Valid()) ==> Valid()
      ensures old(Valid()) ==> (reply.Done? <==> Scripts.Matches(old(Contents()), expected))
      ensures old(Valid()) ==>
        (if reply.Done? then Effects.OnlyCut(old(Contents()), Contents(), expected.spectator)
         else Contents() == old(Contents()))
    {
      hide Runs.Inv;
      if Valid() {
        Runs.StepKeeps(cfg, Contents(), Runs.Detach(expected));
        Effects.DetachEffect(cfg, Contents(), expected);
      }
      if expected.spectator !in spectators.relations ||
         spectators.relations[expected.spectator].(expiresAt := expected.expiresAt) != expected {
        return Scripts.Stale;
      }
      spectators := Relations.Detach(spectators, now, expected.host, expected.spectator);
      reply := Scripts.Done;
    }

    method GetSpectator(account: Account, epoch: Epoch, at: Time) returns (reply: Scripts.Reply)
      modifies this`spectators
      ensures (Contents(), reply) == Scripts.GetSpectator(old(Contents()), account, epoch, at)
      ensures old(Valid()) ==> Valid()
      ensures old(Valid()) ==>
        (var relations, time := old(spectators).relations, Max(now, at);
           (reply.Watching? <==>
             Owns(registry.epochs, account, epoch) && registry.epochs[account].expiresAt > time &&
             account in relations && relations[account].expiresAt > time) &&
           (reply.Watching? ==> reply.relation == relations[account] && Contents() == old(Contents())) &&
           (reply.NoRelation? && account in relations ==> Effects.OnlyCut(old(Contents()), Contents(), account)))
    {
      hide Runs.Inv;
      if Valid() {
        Runs.StepKeeps(cfg, Contents(), Runs.Get(account, epoch, at));
        Effects.GetEffect(cfg, Contents(), account, epoch, at);
      }
      var time := Max(now, at);
      var status := Registry.StatusOf(registry, account, epoch, time);
      if !status.Current? { return Scripts.Denial(status); }
      if account !in spectators.relations { return Scripts.NoRelation; }
      var relation := spectators.relations[account];
      if !Relations.Visible(registry, relation, epoch, time) {
        spectators := Relations.Detach(spectators, now, relation.host, account);
        return Scripts.NoRelation;
      }
      reply := Scripts.Watching(relation);
    }

    method ListSpectators(account: Account, epoch: Epoch, at: Time) returns (reply: Scripts.Reply)
      modifies this`spectators
      ensures (Contents(), reply) == Scripts.ListSpectators(old(Contents()), account, epoch, at)
      ensures old(Valid()) ==> Valid()
    {
      hide Runs.Inv;
      if Valid() { Runs.WatchKeeps(cfg, Contents(), account, epoch, at); }
      hide Relations.Listable, Relations.Follows, Relations.Swept, Relations.ListedRelations;
      var time := Max(now, at);
      var status := Registry.StatusOf(registry, account, epoch, time);
      if !status.Current? { return Scripts.Denial(status); }
      var relations, sessions := spectators.relations, registry;
      var after, watchers := Relations.SweepHost(spectators, now, account,
        v => Relations.Listable(relations, sessions, time, account, epoch, v),
        v => Relations.Follows(relations, v, epoch));
      spectators := after;
      reply := Scripts.Watchers(watchers);
    }

    // -------------------------------------------------------------- frames

    method PublishFrame(account: Account, epoch: Epoch, sequence: nat, payload: string, expiresAt: Time, reset: bool)
      returns (reply: Scripts.Reply)
      modifies this`spectators, this`histories
      ensures (Contents(), reply) ==
        Scripts.PublishFrame(cfg, old(Contents()), account, epoch, sequence, payload, expiresAt, reset)
      ensures old(Valid()) ==> Valid()
    {
      hide Runs.Inv;
      if Valid() { Runs.PublishKeeps(cfg, Contents(), account, epoch, sequence, payload, expiresAt, reset); }
      hide Relations.Reachable, Relations.Named, Relations.Swept, Relations.ListedRelations, Ring.Published;
      hide Ring.NonMonotonic;
      var status := Registry.StatusOf(registry, account, epoch, now);
      if !status.Current? { return Scripts.Denial(status); }
      if !Board.PresentAs(board, account, epoch) || board.presence[account].expiresAt <= now { return Scripts.Offline; }
      if |payload| > cfg.maxBytes { return Scripts.FrameTooLarge; }
      var limit := Min(status.expiresAt, board.presence[account].expiresAt);
      if expiresAt <= now || expiresAt > limit || expiresAt > now + cfg.presenceTtl { return Scripts.InvalidExpiry; }
      var stream := Ring.StreamFor(histories, account, epoch, reset);
      if stream.Some? && Ring.NonMonotonic(stream.value.sequence, sequence) { return Scripts.NonMonotonic; }
      if stream.Some? && stream.value.cursor == MAX_CURSOR { return Scripts.CursorOverflow; }
      var relations, sessions, time := spectators.relations, registry, now;
      var after, recipients := Relations.SweepHost(spectators, now, account,
        v => Relations.Reachable(relations, sessions, time, account, epoch, v),
        v => Relations.Named(relations, account, epoch, v));
      spectators := after;
      var frame := Ring.Frame(Ring.NextCursor(stream), expiresAt, sequence, payload);
      histories := Ring.Publish(cfg, histories, account, epoch, now, frame, reset);
      reply := Scripts.Published(frame.cursor, recipients);
    }

    method ReadFrames(account: Account, epoch: Epoch, at: Time, after: Option<nat>, limit: nat)
      returns (reply: Scripts.Reply)
      modifies this`histories
      ensures (Contents(), reply) == Scripts.ReadFrames(cfg, old(Contents()), account, epoch, at, after, limit)
      ensures old(Valid()) ==> Valid()
    {
      hide Runs.Inv;
      if Valid() { Runs.ReadKeeps(cfg, Contents(), account, epoch, at, after, limit); }
      hide Ring.Pruned, Ring.LatestWindow, Ring.WindowAfter;
      var time := Max(now, at);
      var status := Registry.StatusOf(registry, account, epoch, time);
      if !status.Current? { return Scripts.Denial(status); }
      if account in histories.streams && histories.streams[account].epoch != epoch { return Scripts.Fenced; }
      var pruned := Ring.Prune(histories, account, time, cfg.maxFrames);
      if pruned.None? { return Scripts.Corrupt; }
      histories := pruned.value;
      var frames := Ring.FramesOf(histories, account);
      if after.None? { return Scripts.Frames(Ring.LatestWindow(frames, limit)); }
      var window := Ring.ReadAfter(frames, after.value, limit);
      reply := Scripts.Frames(window);
    }
  }
}
