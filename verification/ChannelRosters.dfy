/** Channel membership: a roster per channel, pruned lazily, and the set of channels each session joined. */
module ChannelRosters {
  import opened Basics
  import opened RealtimeTypes
  import opened SessionRegistry

  /** The member sorted set and the epoch hash of one channel; both keys share their deadline. */
  datatype Roster = Roster(members: map<Account, Time>, epochs: map<Account, Epoch>, deadline: Time)

  datatype Joined = Joined(ids: set<ChannelId>, deadline: Time)

  datatype Channels = Channels(rosters: map<ChannelId, Roster>, joined: map<SessionId, Joined>)

  function NoChannels(): Channels { Channels(map[], map[]) }

  // ---------------------------------------------------------------- transitions

  function RefreshRoster(now: Time, members: map<Account, Time>, epochs: map<Account, Epoch>): Option<Roster> {
    if members.Keys == {} || Latest(members) <= now then None
    else Some(Roster(members, epochs, Latest(members)))
  }

  function Without(now: Time, roster: Roster, account: Account): Option<Roster> {
    RefreshRoster(now, roster.members - {account}, roster.epochs - {account})
  }

  function With(now: Time, roster: Roster, account: Account, expiresAt: Time): Option<Roster> {
    RefreshRoster(now, roster.members[account := expiresAt], roster.epochs)
  }

  predicate Lists(roster: Roster, account: Account, epoch: Epoch) {
    account in roster.epochs && roster.epochs[account] == epoch
  }

  predicate Holds(rosters: map<ChannelId, Roster>, c: ChannelId, account: Account, epoch: Epoch) {
    c in rosters && Lists(rosters[c], account, epoch)
  }

  function IdsOf(ch: Channels, session: SessionId): set<ChannelId> {
    if session in ch.joined then ch.joined[session].ids else {}
  }

  /** Those of the given channels whose roster lists the epoch. */
  function Listing(rosters: map<ChannelId, Roster>, account: Account, epoch: Epoch,
                   ids: set<ChannelId>): set<ChannelId> {
    set c | c in ids && c in rosters && Lists(rosters[c], account, epoch)
  }

  /** Every picked roster replaced by its image; a roster without one is deleted. */
  function Each(rosters: map<ChannelId, Roster>, picked: set<ChannelId>,
                f: Roster -> Option<Roster>): map<ChannelId, Roster> {
    map c | c in rosters && (c in picked ==> f(rosters[c]).Some?) ::
      if c in picked then f(rosters[c]).value else rosters[c]
  }

  lemma EachStep(rosters: map<ChannelId, Roster>, picked: set<ChannelId>, f: Roster -> Option<Roster>, c: ChannelId)
    requires c !in picked
    ensures c in Each(rosters, picked, f) <==> c in rosters
    ensures c in rosters ==> Each(rosters, picked, f)[c] == rosters[c]
    ensures c in rosters ==> Each(rosters, picked + {c}, f) == Put(Each(rosters, picked, f), c, f(rosters[c]))
  {}

  lemma ListingStep(rosters: map<ChannelId, Roster>, account: Account, epoch: Epoch, done: set<ChannelId>, c: ChannelId)
    requires c !in done
    ensures c !in Listing(rosters, account, epoch, done)
    ensures Listing(rosters, account, epoch, done + {c}) ==
      if c in rosters && Lists(rosters[c], account, epoch) then Listing(rosters, account, epoch, done) + {c}
      else Listing(rosters, account, epoch, done)
  {}

  function LeftAll(rosters: map<ChannelId, Roster>, now: Time, account: Account, epoch: Epoch,
                   ids: set<ChannelId>): map<ChannelId, Roster> {
    Each(rosters, Listing(rosters, account, epoch, ids), roster => Without(now, roster, account))
  }

  method LeaveAll(rosters: map<ChannelId, Roster>, now: Time, account: Account, epoch: Epoch, ids: set<ChannelId>)
    returns (left: map<ChannelId, Roster>)
    ensures left == LeftAll(rosters, now, account, epoch, ids)
  {
    hide Without, Each, Listing, Lists, Put;
    ghost var f := roster => Without(now, roster, account);
    NothingPicked(rosters, account, epoch, f);
    left := rosters;
    var rest := ids;
    assert ids - rest == {};
    while rest != {}
      invariant rest <= ids
      invariant left == Each(rosters, Listing(rosters, account, epoch, ids - rest), f)
      decreases |rest|
    {
      var c :| c in rest;
      ghost var done := ids - rest;
      ListingStep(rosters, account, epoch, done, c);
      EachStep(rosters, Listing(rosters, account, epoch, done), f, c);
      rest := rest - {c};
      assert ids - rest == done + {c};
      if c in left && Lists(left[c], account, epoch) {
        left := Put(left, c, Without(now, left[c], account));
      }
    }
    assert ids - rest == ids;
  }

  lemma NothingPicked(rosters: map<ChannelId, Roster>, account: Account, epoch: Epoch, f: Roster -> Option<Roster>)
    ensures Listing(rosters, account, epoch, {}) == {} && Each(rosters, {}, f) == rosters
  {}

  function RenewedAll(rosters: map<ChannelId, Roster>, now: Time, account: Account, epoch: Epoch, ids: set<ChannelId>,
                      expiresAt: Time): map<ChannelId, Roster> {
    Each(rosters, Listing(rosters, account, epoch, ids), roster => With(now, roster, account, expiresAt))
  }

  method RenewAll(rosters: map<ChannelId, Roster>, now: Time, account: Account, epoch: Epoch, ids: set<ChannelId>,
                  expiresAt: Time)
    returns (renewed: map<ChannelId, Roster>, kept: set<ChannelId>)
    ensures renewed == RenewedAll(rosters, now, account, epoch, ids, expiresAt)
    ensures kept == Listing(rosters, account, epoch, ids)
  {
    hide With, Each, Listing, Lists, Put;
    ghost var f := roster => With(now, roster, account, expiresAt);
    NothingPicked(rosters, account, epoch, f);
    renewed, kept := rosters, ids;
    var rest := ids;
    assert ids - rest == {};
    while rest != {}
      invariant rest <= ids
      invariant renewed == Each(rosters, Listing(rosters, account, epoch, ids - rest), f)
      invariant kept == Listing(rosters, account, epoch, ids - rest) + rest
      decreases |rest|
    {
      var c :| c in rest;
      ghost var done := ids - rest;
      ListingStep(rosters, account, epoch, done, c);
      EachStep(rosters, Listing(rosters, account, epoch, done), f, c);
      rest := rest - {c};
      assert ids - rest == done + {c};
      if c in renewed && Lists(renewed[c], account, epoch) {
        renewed := Put(renewed, c, With(now, renewed[c], account, expiresAt));
      } else {
        kept := kept - {c};
      }
    }
    assert ids - rest == ids;
  }

  function ExpireChannels(ch: Channels, now: Time): Channels {
    Channels(
      map c | c in ch.rosters && ch.rosters[c].deadline > now :: ch.rosters[c],
      map s | s in ch.joined && ch.joined[s].deadline > now :: ch.joined[s])
  }

  /** A new epoch starts outside every channel; the previous one leaves them all. */
  function Reopened(ch: Channels, now: Time, live: Live, account: Account, session: SessionId): Channels {
    if account in live then
      var last := live[account].epoch;
      Channels(LeftAll(ch.rosters, now, account, last, IdsOf(ch, last.session)), ch.joined - {last.session} - {session})
    else
      ch.(joined := ch.joined - {session})
  }

  function Renewed(ch: Channels, now: Time, account: Account, epoch: Epoch, expiresAt: Time): Channels {
    var ids := IdsOf(ch, epoch.session);
    var kept := Listing(ch.rosters, account, epoch, ids);
    Channels(RenewedAll(ch.rosters, now, account, epoch, ids, expiresAt),
      if kept == {} then ch.joined - {epoch.session} else ch.joined[epoch.session := Joined(kept, expiresAt)])
  }

  function Fence(ch: Channels, now: Time, account: Account, epoch: Epoch): Channels {
    Channels(LeftAll(ch.rosters, now, account, epoch, IdsOf(ch, epoch.session)), ch.joined - {epoch.session})
  }

  predicate AtLimit(cfg: Config, ch: Channels, session: SessionId, c: ChannelId) {
    c !in IdsOf(ch, session) && |IdsOf(ch, session)| >= cfg.maxChannels
  }

  function Join(ch: Channels, now: Time, account: Account, epoch: Epoch, expiresAt: Time, c: ChannelId): Channels {
    var members := if c in ch.rosters then ch.rosters[c].members else map[];
    var epochs := if c in ch.rosters then ch.rosters[c].epochs else map[];
    Channels(
      Put(ch.rosters, c, RefreshRoster(now, members[account := expiresAt], epochs[account := epoch])),
      ch.joined[epoch.session := Joined(IdsOf(ch, epoch.session) + {c}, expiresAt)])
  }

  function Leave(ch: Channels, now: Time, account: Account, epoch: Epoch, c: ChannelId): Channels {
    var ids := IdsOf(ch, epoch.session) - {c};
    Channels(
      if Holds(ch.rosters, c, account, epoch)
      then Put(ch.rosters, c, Without(now, ch.rosters[c], account)) else ch.rosters,
      if ids == {} then ch.joined - {epoch.session}
      else ch.joined[epoch.session := ch.joined[epoch.session].(ids := ids)])
  }

  predicate Active(r: Registry, roster: Roster, now: Time, a: Account) {
    a in roster.members && roster.members[a] > now && a in roster.epochs &&
    var e := roster.epochs[a];
    Owns(r.epochs, a, e) && e.session in r.sessions && r.sessions[e.session].account == a &&
    r.sessions[e.session].revision == e.revision && r.sessions[e.session].expiresAt > now
  }

  function ActiveIn(r: Registry, roster: Roster, now: Time, among: set<Account>): set<Account> {
    set a | a in among && Active(r, roster, now, a)
  }

  function ActiveMembers(r: Registry, ch: Channels, now: Time, c: ChannelId): set<Account> {
    if c in ch.rosters then ActiveIn(r, ch.rosters[c], now, ch.rosters[c].members.Keys) else {}
  }

  /** The roster without the members that are no longer active. */
  function Pruned(r: Registry, roster: Roster, now: Time): Option<Roster> {
    var gone := roster.members.Keys - ActiveIn(r, roster, now, roster.members.Keys);
    RefreshRoster(now, roster.members - gone, roster.epochs - gone)
  }

  function Listed(r: Registry, ch: Channels, now: Time, c: ChannelId): Channels {
    if c in ch.rosters then ch.(rosters := Put(ch.rosters, c, Pruned(r, ch.rosters[c], now))) else ch
  }

  lemma ActiveStep(r: Registry, roster: Roster, now: Time, among: set<Account>, a: Account)
    requires a !in among
    ensures Active(r, roster, now, a) ==>
      ActiveIn(r, roster, now, among + {a}) == ActiveIn(r, roster, now, among) + {a} &&
      among + {a} - ActiveIn(r, roster, now, among + {a}) == among - ActiveIn(r, roster, now, among)
    ensures !Active(r, roster, now, a) ==>
      ActiveIn(r, roster, now, among + {a}) == ActiveIn(r, roster, now, among) &&
      among + {a} - ActiveIn(r, roster, now, among + {a}) == among - ActiveIn(r, roster, now, among) + {a}
  {
    hide Active;
  }

  lemma NoneActive(r: Registry, roster: Roster, now: Time)
    ensures ActiveIn(r, roster, now, {}) == {} && roster.members - {} == roster.members &&
      roster.epochs - {} == roster.epochs
  {}

  lemma DropStep<V>(m: map<Account, V>, gone: set<Account>, a: Account)
    ensures m - gone - {a} == m - (gone + {a})
  {}

  method Prune(r: Registry, roster: Roster, now: Time) returns (pruned: Option<Roster>, accounts: set<Account>)
    ensures pruned == Pruned(r, roster, now) && accounts == ActiveIn(r, roster, now, roster.members.Keys)
  {
    hide Active, ActiveIn, RefreshRoster;
    var members, epochs, rest := roster.members, roster.epochs, roster.members.Keys;
    ghost var seen: set<Account>, gone: set<Account> := {}, {};
    accounts := {};
    NoneActive(r, roster, now);
    while rest != {}
      invariant seen !! rest && seen + rest == roster.members.Keys
      invariant accounts == ActiveIn(r, roster, now, seen) && gone == seen - ActiveIn(r, roster, now, seen)
      invariant members == roster.members - gone && epochs == roster.epochs - gone
      decreases |rest|
    {
      var a :| a in rest;
      rest := rest - {a};
      ActiveStep(r, roster, now, seen, a);
      seen := seen + {a};
      if Active(r, roster, now, a) {
        accounts := accounts + {a};
      } else {
        DropStep(roster.members, gone, a);
        DropStep(roster.epochs, gone, a);
        members := members - {a};
        epochs := epochs - {a};
        gone := gone + {a};
      }
    }
    assert seen == roster.members.Keys;
    pruned := RefreshRoster(now, members, epochs);
  }

  method List(r: Registry, ch: Channels, now: Time, c: ChannelId) returns (after: Channels, accounts: set<Account>)
    ensures after == Listed(r, ch, now, c) && accounts == ActiveMembers(r, ch, now, c)
  {
    if c !in ch.rosters { return ch, {}; }
    var pruned, active := Prune(r, ch.rosters[c], now);
    after, accounts := ch.(rosters := Put(ch.rosters, c, pruned)), active;
  }
}
