/** Presence, its online index with bounded capacity, and preferences. */
module PresenceBoard {
  import opened Basics
  import opened RealtimeTypes

  datatype Presence = Presence(epoch: Epoch, expiresAt: Time, state: string)

  datatype Preference = Preference(epoch: Epoch, fields: map<string, string>, deadline: Time)

  datatype Board = Board(presence: map<Account, Presence>, index: Option<SortedSet>, preferences: map<Account,
                         Preference>)

  function NoPresence(): Board { Board(map[], None, map[]) }

  function IndexOf(b: Board): map<Account, Time> { if b.index.Some? then b.index.value.scores else map[] }

  // ---------------------------------------------------------------- transitions

  function ExpireBoard(b: Board, now: Time): Board {
    Board(
      map a | a in b.presence && b.presence[a].expiresAt > now :: b.presence[a],
      if b.index.Some? && b.index.value.deadline > now then b.index else None,
      map a | a in b.preferences && b.preferences[a].deadline > now :: b.preferences[a])
  }

  function ClearedPresence(b: Board, now: Time, account: Account): Board {
    b.(presence := b.presence - {account}, index := Refreshed(now, IndexOf(b) - {account}))
  }

  function ClearedBoard(b: Board, now: Time, account: Account): Board {
    ClearedPresence(b, now, account).(preferences := b.preferences - {account})
  }

  predicate PresentAs(b: Board, account: Account, epoch: Epoch) {
    account in b.presence && b.presence[account].epoch == epoch
  }

  function RenewedPresence(b: Board, now: Time, account: Account, epoch: Epoch, until: Time): Board {
    if PresentAs(b, account, epoch) then
      b.(presence := b.presence[account := b.presence[account].(expiresAt := until)],
         index := Refreshed(now, IndexOf(b)[account := until]))
    else b
  }

  function RenewedPreference(b: Board, account: Account, epoch: Epoch, deadline: Time): Board {
    if account in b.preferences && b.preferences[account].epoch == epoch then
      b.(preferences := b.preferences[account := b.preferences[account].(deadline := deadline)])
    else b
  }

  /** The index without the scores in the past. */
  function Ahead(scores: map<Account, Time>, now: Time): map<Account, Time> {
    map a | a in scores && scores[a] > now :: scores[a]
  }

  function Indexed(b: Board, now: Time, capacity: nat): map<Account, Time> {
    if capacity > 0 then Ahead(IndexOf(b), now) else IndexOf(b)
  }

  /** A positive capacity refuses an account that is not yet indexed when the index is full. */
  predicate Full(b: Board, now: Time, account: Account, capacity: nat) {
    capacity > 0 && account !in Ahead(IndexOf(b), now) && |Ahead(IndexOf(b), now).Keys| >= capacity
  }

  function RefusedPresence(b: Board, now: Time): Board { b.(index := Refreshed(now, Ahead(IndexOf(b), now))) }

  function SetPresence(b: Board, now: Time, account: Account, presence: Presence, capacity: nat): Board {
    b.(presence := b.presence[account := presence],
       index := Refreshed(now, Indexed(b, now, capacity)[account := presence.expiresAt]))
  }

  function SetPreference(b: Board, account: Account, epoch: Epoch, deadline: Time, field: string,
                         value: string): Board {
    var fields := if account in b.preferences then b.preferences[account].fields else map[];
    b.(preferences := b.preferences[account := Preference(epoch, fields[field := value], deadline)])
  }

  // ---------------------------------------------------------------- invariant

  ghost predicate PresenceOwned(b: Board, live: Live, now: Time) {
    forall a :: a in b.presence ==>
      Owns(live, a, b.presence[a].epoch) && now < b.presence[a].expiresAt <= live[a].expiresAt
  }

  ghost predicate PreferencesOwned(b: Board, live: Live) {
    forall a :: a in b.preferences ==>
      Owns(live, a, b.preferences[a].epoch) && b.preferences[a].deadline == live[a].expiresAt
  }

  function IndexScore(scores: map<Account, Time>, now: Time, a: Account): Option<Time> {
    if a in scores && scores[a] > now then Some(scores[a]) else None
  }

  function PresenceDeadline(b: Board, a: Account): Option<Time> {
    if a in b.presence then Some(b.presence[a].expiresAt) else None
  }

  /** The scores still ahead are those of the live presences, with their deadlines. */
  ghost predicate IndexMirrors(b: Board, now: Time) {
    (b.index.Some? ==> Tidy(now, b.index.value)) &&
    forall a :: IndexScore(IndexOf(b), now, a) == PresenceDeadline(b, a)
  }

  ghost predicate ValidBoard(b: Board, live: Live, now: Time) {
    PresenceOwned(b, live, now) && PreferencesOwned(b, live) && IndexMirrors(b, now)
  }

  lemma RefreshedScore(b: Board, now: Time, scores: map<Account, Time>, a: Account)
    requires b.index == Refreshed(now, scores)
    ensures IndexScore(IndexOf(b), now, a) == IndexScore(scores, now, a)
    ensures b.index.Some? ==> Tidy(now, b.index.value)
  {
    if a in scores && scores[a] > now { assert a in scores.Keys; }
  }

  // ---------------------------------------------------------------- preservation

  lemma ExpireBoardKeeps(b: Board, live: Live, now: Time, later: Time)
    requires ValidBoard(b, live, now) && now <= later
    ensures ValidBoard(ExpireBoard(b, later), Alive(live, later), later)
  {
    var after := ExpireBoard(b, later);
    forall a ensures IndexScore(IndexOf(after), later, a) == PresenceDeadline(after, a) {
      assert IndexScore(IndexOf(b), now, a) == PresenceDeadline(b, a);
    }
  }

  lemma ClearedPresenceKeeps(b: Board, live: Live, now: Time, account: Account)
    requires ValidBoard(b, live, now)
    ensures ValidBoard(ClearedPresence(b, now, account), live, now)
  {
    hide Refreshed, Tidy;
    var after := ClearedPresence(b, now, account);
    RefreshedScore(after, now, IndexOf(b) - {account}, account);
    forall a ensures IndexScore(IndexOf(after), now, a) == PresenceDeadline(after, a) {
      RefreshedScore(after, now, IndexOf(b) - {account}, a);
      assert IndexScore(IndexOf(b), now, a) == PresenceDeadline(b, a);
    }
  }

  /** With its keys deleted, an account may take any lease or none. */
  lemma ClearedBoardKeeps(b: Board, live: Live, now: Time, account: Account, after: Live)
    requires ValidBoard(b, live, now)
    requires forall a :: a in live && a != account ==> a in after && after[a] == live[a]
    ensures ValidBoard(ClearedBoard(b, now, account), after, now)
  {
    hide Refreshed, Tidy;
    ClearedPresenceKeeps(b, live, now, account);
    var cleared := ClearedBoard(b, now, account);
    forall a ensures IndexScore(IndexOf(cleared), now, a) == PresenceDeadline(cleared, a) {
      assert IndexScore(IndexOf(ClearedPresence(b, now, account)), now, a) ==
        PresenceDeadline(ClearedPresence(b, now, account), a);
    }
  }

  lemma StampedKeeps(b: Board, live: Live, now: Time, account: Account, presence: Presence, scores: map<Account, Time>,
                     after: Board)
    requires ValidBoard(b, live, now) && Owns(live, account, presence.epoch) &&
      now < presence.expiresAt <= live[account].expiresAt
    requires forall a :: a != account ==> IndexScore(scores, now, a) == IndexScore(IndexOf(b), now, a)
    requires account in scores && scores[account] == presence.expiresAt
    requires after == b.(presence := b.presence[account := presence], index := Refreshed(now, scores))
    ensures ValidBoard(after, live, now)
  {
    hide Refreshed, Tidy;
    RefreshedScore(after, now, scores, account);
    forall a ensures IndexScore(IndexOf(after), now, a) == PresenceDeadline(after, a) {
      RefreshedScore(after, now, scores, a);
      assert IndexScore(IndexOf(b), now, a) == PresenceDeadline(b, a);
    }
  }

  lemma SetPresenceKeeps(b: Board, live: Live, now: Time, account: Account, presence: Presence, capacity: nat)
    requires ValidBoard(b, live, now) && Owns(live, account, presence.epoch) &&
      now < presence.expiresAt <= live[account].expiresAt
    ensures ValidBoard(SetPresence(b, now, account, presence, capacity), live, now)
  {
    hide ValidBoard, Refreshed;
    StampedKeeps(b, live, now, account, presence, Indexed(b, now, capacity)[account := presence.expiresAt],
      SetPresence(b, now, account, presence, capacity));
  }

  lemma RefusedPresenceKeeps(b: Board, live: Live, now: Time)
    requires ValidBoard(b, live, now)
    ensures ValidBoard(RefusedPresence(b, now), live, now)
  {
    hide Refreshed, Tidy;
    var after := RefusedPresence(b, now);
    RefreshedScore(after, now, Ahead(IndexOf(b), now), Account(0));
    forall a ensures IndexScore(IndexOf(after), now, a) == PresenceDeadline(after, a) {
      RefreshedScore(after, now, Ahead(IndexOf(b), now), a);
      assert IndexScore(IndexOf(b), now, a) == PresenceDeadline(b, a);
    }
  }

  lemma SetPreferenceKeeps(b: Board, live: Live, now: Time, account: Account, field: string, value: string)
    requires ValidBoard(b, live, now) && account in live
    ensures ValidBoard(SetPreference(b, account, live[account].epoch, live[account].expiresAt, field, value), live, now)
  {
    hide Refreshed, Tidy;
    var after := SetPreference(b, account, live[account].epoch, live[account].expiresAt, field, value);
    forall a ensures IndexScore(IndexOf(after), now, a) == PresenceDeadline(after, a) {
      assert IndexScore(IndexOf(b), now, a) == PresenceDeadline(b, a);
    }
  }

  /** A heartbeat moves the account's lease, presence and preference together. */
  lemma RenewedBoardKeeps(b: Board, live: Live, now: Time, account: Account, expiresAt: Time, until: Time)
    requires ValidBoard(b, live, now) && account in live && live[account].expiresAt <= expiresAt &&
      now < until <= expiresAt
    ensures var epoch := live[account].epoch;
      ValidBoard(RenewedPreference(RenewedPresence(b, now, account, epoch, until), account, epoch, expiresAt),
        live[account := Lease(epoch, expiresAt)], now)
  {
    hide Refreshed, Tidy;
    var epoch := live[account].epoch;
    var mid := RenewedPresence(b, now, account, epoch, until);
    var after := RenewedPreference(mid, account, epoch, expiresAt);
    forall a ensures IndexScore(IndexOf(after), now, a) == PresenceDeadline(after, a) {
      if PresentAs(b, account, epoch) { RefreshedScore(mid, now, IndexOf(b)[account := until], a); }
      assert IndexScore(IndexOf(b), now, a) == PresenceDeadline(b, a);
    }
    if PresentAs(b, account, epoch) { RefreshedScore(mid, now, IndexOf(b)[account := until], account); }
  }

  // ---------------------------------------------------------------- capacity

  /** The scores ahead are exactly those of the live presences. */
  lemma AheadIsPresent(b: Board, live: Live, now: Time)
    requires ValidBoard(b, live, now)
    ensures Ahead(IndexOf(b), now).Keys == b.presence.Keys
  {
    hide Tidy, PresenceOwned, PreferencesOwned, IndexOf;
    forall a ensures a in Ahead(IndexOf(b), now).Keys <==> a in b.presence.Keys {
      assert IndexScore(IndexOf(b), now, a) == PresenceDeadline(b, a);
    }
  }

  /** Presences never outgrow the capacity they are set with. */
  lemma CapacityHolds(b: Board, live: Live, now: Time, account: Account, presence: Presence, capacity: nat)
    requires ValidBoard(b, live, now) && capacity > 0
    requires |b.presence.Keys| <= capacity && !Full(b, now, account, capacity)
    ensures |SetPresence(b, now, account, presence, capacity).presence.Keys| <= capacity
  {
    hide ValidBoard, Refreshed, Ahead, IndexOf;
    AheadIsPresent(b, live, now);
    assert SetPresence(b, now, account, presence, capacity).presence.Keys == b.presence.Keys + {account};
  }
}
