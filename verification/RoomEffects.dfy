/** What each room mutation and each room script does, field by field, and exactly when it is refused. */
module RoomEffects {
  import opened Basics
  import opened RealtimeTypes
  import opened RoomSlots
  import opened RoomProjection
  import opened RoomRuns

  // ---------------------------------------------------------------- mutations

  /** The slots differ at the account's own slot alone, which has become the given one. */
  ghost predicate OnlyOwn(slots: Slots, after: Slots, account: Account, own: Slot -> Slot) {
    |after| == |slots| &&
    forall i :: 0 <= i < |slots| ==>
      after[i] == if slots[i].account == Some(account) then own(slots[i]) else slots[i]
  }

  lemma IsIn(slots: Slots, account: Account)
    ensures FindAccount(slots, account) < |slots| <==> account in Accounts(slots)
  {
    hide FindAccount;
    var n := FindAccount(slots, account);
    if n < |slots| { assert slots[n].account == Some(account); }
  }

  /** The first open slot goes to a newcomer, not ready and with nothing chosen; a full room refuses. */
  lemma JoinEffect(slots: Slots, account: Account)
    requires ValidSlots(slots)
    ensures var r := Apply(Join(account), slots);
      (r.Unchanged? <==> account in Accounts(slots)) &&
      (r.Rejected? <==> account !in Accounts(slots) && forall i :: 0 <= i < |slots| ==> slots[i].status != Open) &&
      (r.Changed? ==>
        exists n :: 0 <= n < |slots| && slots[n].status == Open &&
          (forall i :: 0 <= i < n ==> slots[i].status != Open) &&
          r.slots == slots[n := Slot(n, NotReady, Some(account), 0, "", false, false, false)])
  {
    hide FindAccount, FindOpen, ReplaceAt;
    IsIn(slots, account);
    var n := FindOpen(slots);
    if n < |slots| { ReplaceOne(slots, n, Occupied(n, NotReady, account)); }
  }

  /** Leaving opens the account's slot and clears it. */
  lemma LeaveEffect(slots: Slots, account: Account)
    requires ValidSlots(slots)
    ensures var r := Apply(Leave(account), slots);
      !r.Rejected? && (r.Unchanged? <==> account !in Accounts(slots)) &&
      (r.Changed? ==>
        OnlyOwn(slots, r.slots, account, (s: Slot) => Slot(s.position, Open, None, 0, "", false, false, false)))
  {
    hide FindAccount;
    IsIn(slots, account);
  }

  /** Moving takes the account's slot as it is to an open position and leaves its own open. */
  lemma MoveEffect(slots: Slots, account: Account, target: nat)
    requires ValidSlots(slots)
    ensures var r := Apply(Move(account, target), slots);
      !r.Unchanged? &&
      (r.Changed? <==> account in Accounts(slots) && target < |slots| && slots[target].status == Open) &&
      (r.Changed? ==>
        exists n :: 0 <= n < |slots| && slots[n].account == Some(account) &&
          var left := slots[n := Slot(n, Open, None, 0, "", false, false, false)];
          r.slots == left[target := slots[n].(position := target)])
  {
    hide FindAccount, Moved;
    IsIn(slots, account);
    var n := FindAccount(slots, account);
    if n < |slots| && target < |slots| && slots[target].status == Open { MovedIsSwap(slots, n, target); }
  }

  /** An empty slot is locked when open and opened when locked. */
  lemma LockEffect(slots: Slots, actor: Account, position: nat)
    requires ValidSlots(slots)
    ensures var r := Apply(Lock(actor, position), slots);
      !r.Unchanged? && (r.Changed? <==> position < |slots| && slots[position].account.None?) &&
      (r.Changed? ==>
        var status := if slots[position].status == Open then Locked else Open;
        r.slots == slots[position := slots[position].(status := status)])
  {
    if position < |slots| && slots[position].account.None? {
      ReplaceOne(slots, position, slots[position].(status := if slots[position].status == Open then Locked else Open));
    }
  }

  lemma StatusEffect(slots: Slots, account: Account, status: SlotStatus)
    requires ValidSlots(slots)
    ensures var r := Apply(Update(account, SetStatus(status)), slots);
      !r.Unchanged? && (r.Changed? <==> account in Accounts(slots) && status != Open && status != Locked) &&
      (r.Changed? ==> OnlyOwn(slots, r.slots, account, (s: Slot) => s.(status := status)))
  {
    hide FindAccount;
    IsIn(slots, account);
  }

  lemma TeamEffect(slots: Slots, account: Account, team: nat)
    requires ValidSlots(slots)
    ensures var r := Apply(Update(account, SetTeam(team)), slots);
      !r.Unchanged? && (r.Changed? <==> account in Accounts(slots) && team in {0, 1, 2}) &&
      (r.Changed? ==> OnlyOwn(slots, r.slots, account, (s: Slot) => s.(team := team)))
  {
    hide FindAccount;
    IsIn(slots, account);
  }

  lemma ModsEffect(slots: Slots, account: Account, mods: string)
    requires ValidSlots(slots)
    ensures var r := Apply(Update(account, SetMods(mods)), slots);
      !r.Unchanged? && (r.Changed? <==> account in Accounts(slots)) &&
      (r.Changed? ==> OnlyOwn(slots, r.slots, account, (s: Slot) => s.(mods := mods)))
  {
    hide FindAccount;
    IsIn(slots, account);
  }

  /** The account is playing. */
  ghost predicate Plays(slots: Slots, account: Account) {
    exists i :: 0 <= i < |slots| && slots[i].account == Some(account) && slots[i].status == Playing
  }

  lemma PlaysAt(slots: Slots, account: Account)
    requires ValidSlots(slots)
    ensures var n := FindAccount(slots, account);
      Plays(slots, account) <==> n < |slots| && slots[n].status == Playing
  {
    hide FindAccount;
    var n := FindAccount(slots, account);
    if n < |slots| && slots[n].status == Playing { assert Plays(slots, account); }
  }

  lemma LoadedEffect(slots: Slots, account: Account)
    requires ValidSlots(slots)
    ensures var r := Apply(Update(account, MarkLoaded), slots);
      !r.Unchanged? && (r.Changed? <==> Plays(slots, account)) &&
      (r.Changed? ==> OnlyOwn(slots, r.slots, account, (s: Slot) => s.(loaded := true)))
  {
    hide FindAccount, Plays;
    PlaysAt(slots, account);
  }

  lemma SkippedEffect(slots: Slots, account: Account)
    requires ValidSlots(slots)
    ensures var r := Apply(Update(account, MarkSkipped), slots);
      !r.Unchanged? && (r.Changed? <==> Plays(slots, account)) &&
      (r.Changed? ==> OnlyOwn(slots, r.slots, account, (s: Slot) => s.(skipped := true)))
  {
    hide FindAccount, Plays;
    PlaysAt(slots, account);
  }

  lemma FailedEffect(slots: Slots, account: Account)
    requires ValidSlots(slots)
    ensures var r := Apply(Update(account, MarkFailed), slots);
      !r.Unchanged? && (r.Changed? <==> Plays(slots, account)) &&
      (r.Changed? ==> OnlyOwn(slots, r.slots, account, (s: Slot) => s.(status := Complete, failed := true)))
  {
    hide FindAccount, Plays;
    PlaysAt(slots, account);
  }

  /**
   * The state a client writes: nothing but the room record when the slots stay, and the new slots under the next
   * revision otherwise. Only the host locks slots, only a join moves the deadline, and only join and leave carry a
   * new record.
   */
  lemma MutationEffect(state: RoomState, mutation: Mutation, room: Room, deadline: Time)
    ensures var next := Mutated(state, mutation, room, deadline); var r := Apply(mutation, state.slots);
      (next.Some? ==>
        !r.Rejected? && (mutation.Lock? ==> mutation.actor == state.room.host) && ValidState(next.value)) &&
      (next.Some? ==>
        next.value.room == (if mutation.Join? || mutation.Leave? then room else state.room) &&
        next.value.round == state.round && next.value.participants == state.participants) &&
      (next.Some? && r.Unchanged? ==>
        next.value.slots == state.slots && next.value.revision == state.revision &&
        next.value.expiresAt == state.expiresAt) &&
      (next.Some? && r.Changed? ==>
        next.value.slots == r.slots && next.value.revision == state.revision + 1 &&
        next.value.expiresAt == if mutation.Join? then deadline else state.expiresAt)
  {
    hide Apply, ValidState;
  }

  /**
   * A mutation of a valid state is written exactly when the slots accept it, a lock comes from the host, a new record
   * has the room's capacity, and host and round participants remain in the room: leaving in one's own round raises.
   */
  lemma MutationAccepted(state: RoomState, mutation: Mutation, room: Room, deadline: Time)
    requires ValidState(state)
    ensures var stays :=
        if mutation.Join? then Accounts(state.slots) + {mutation.account}
        else if mutation.Leave? then Accounts(state.slots) - {mutation.account}
        else Accounts(state.slots);
      Mutated(state, mutation, room, deadline).Some? <==>
        !Apply(mutation, state.slots).Rejected? && (mutation.Lock? ==> mutation.actor == state.room.host) &&
        (mutation.Join? || mutation.Leave? ==>
          room.epoch >= 1 && room.capacity == |state.slots| && room.host in stays) &&
        forall a :: a in state.participants ==> a in stays
  {
    hide Apply, Accounts, ValidSlots;
    ApplyKeeps(mutation, state.slots);
  }

  // ---------------------------------------------------------------- scripts

  /** No occupant of the state is held by another public id, or by this one at the same or a later epoch. */
  ghost predicate AllFree(index: map<Account, Entry>, state: RoomState) {
    forall a :: a in Accounts(state.slots) && a in index ==>
      var holder := index[a].owner;
      holder == Owner(state.room.publicId, state.room.epoch, state.room.session) ||
      (holder.publicId == state.room.publicId && holder.epoch < state.room.epoch)
  }

  lemma FreeIsNoConflict(index: map<Account, Entry>, state: RoomState)
    ensures Conflicts(index, Occupants(state.slots), OwnerOf(state)) <==> !AllFree(index, state)
  {
    hide Occupants, Accounts;
    var accounts := Occupants(state.slots);
    forall a ensures a in accounts <==> a in Accounts(state.slots) { OccupantsAreAccounts(state.slots, a); }
    if !AllFree(index, state) {
      var a :| a in Accounts(state.slots) && a in index && Blocks(index, a, OwnerOf(state));
      var i :| 0 <= i < |accounts| && accounts[i] == a;
    }
    if Conflicts(index, accounts, OwnerOf(state)) {
      var i :| 0 <= i < |accounts| && Blocks(index, accounts[i], OwnerOf(state));
      assert accounts[i] in accounts;
    }
  }

  /**
   * The store after the state is written: its occupants' entries are its own, and the rest is as in the given index.
   */
  ghost predicate Installed(p: Projection, index: map<Account, Entry>, state: RoomState, q: Projection) {
    q.now == p.now &&
    (if state.expiresAt > p.now then q.rooms == p.rooms[state.room.publicId := state]
     else q.rooms == p.rooms - {state.room.publicId}) &&
    forall a ::
      if a in Accounts(state.slots) then
        (if state.expiresAt > p.now then
           a in q.index && q.index[a] == Entry(Owner(state.room.publicId, state.room.epoch, state.room.session),
             state.expiresAt)
         else a !in q.index)
      else (a in q.index <==> a in index) && (a in q.index ==> q.index[a] == index[a])
  }

  lemma WrittenInstalls(p: Projection, index: map<Account, Entry>, previous: seq<Account>, owner: Owner,
                        state: RoomState)
    ensures var result := Written(p, index, previous, owner, state);
      if AllFree(index, state) then result.1.Ok? && Installed(p, Released(index, previous, owner), state, result.0)
      else result == (p.(index := index), AccountConflict)
  {
    hide Occupants, Accounts, Conflicts, AllFree, Released;
    FreeIsNoConflict(index, state);
    forall a ensures a in Occupants(state.slots) <==> a in Accounts(state.slots) {
      OccupantsAreAccounts(state.slots, a);
    }
  }

  /** The index without the owner's entries of the given accounts. */
  ghost predicate Without(index: map<Account, Entry>, accounts: seq<Account>, owner: Owner, left: map<Account, Entry>) {
    forall a ::
      (a in left <==> a in index && !(a in accounts && index[a].owner == owner)) && (a in left ==> left[a] == index[a])
  }

  /**
   * A replacement commits exactly when the stored room is the one the client read, by session and revision, the
   * written epoch is not older and changes with the session, and the occupants are free; else nothing changes.
   */
  lemma ReplaceEffect(p: Projection, expected: Expectation, previous: seq<Account>, state: RoomState)
    ensures var result := Replace(p, expected, previous, state); var id := state.room.publicId;
      (result.1.Ok? <==>
        state.room.epoch >= 1 && id in p.rooms && p.rooms[id].room.session == expected.session &&
        p.rooms[id].revision == expected.revision && p.rooms[id].room.epoch <= state.room.epoch &&
        (p.rooms[id].room.epoch == state.room.epoch ==> state.room.session == expected.session) &&
        AllFree(p.index, state)) &&
      (!result.1.Ok? ==> result.0 == p) &&
      (result.1.Ok? ==>
        var current := p.rooms[id].room;
        exists left :: Without(p.index, previous, Owner(current.publicId, current.epoch, current.session), left) &&
          Installed(p, left, state, result.0))
  {
    hide Written, Installed, AllFree;
    var id := state.room.publicId;
    if id in p.rooms {
      var owner := OwnerOf(p.rooms[id]);
      WrittenInstalls(p, p.index, previous, owner, state);
      assert Without(p.index, previous, owner, Released(p.index, previous, owner));
    }
  }

  /**
   * A room is published where there is none or one of an older epoch, whose entries go first, even when the occupants
   * then turn out not to be free.
   */
  lemma CreateEffect(p: Projection, state: RoomState)
    ensures var result := Create(p, state); var id := state.room.publicId;
      if state.room.epoch < 1 || (id in p.rooms && p.rooms[id].room.epoch >= state.room.epoch) then
        result.0 == p && !result.1.Ok?
      else
        exists left ::
          (if id in p.rooms then
             var current := p.rooms[id];
             Without(p.index, Occupants(current.slots),
               Owner(current.room.publicId, current.room.epoch, current.room.session), left)
           else left == p.index) &&
          (result.1.Ok? <==> AllFree(left, state)) &&
          if result.1.Ok? then Installed(p, left, state, result.0) else result.0 == p.(index := left)
  {
    hide Written, Installed, AllFree, Occupants;
    var id := state.room.publicId;
    if id !in p.rooms {
      WrittenInstalls(p, p.index, [], OwnerOf(state), state);
      NothingReleased(p.index, OwnerOf(state));
    } else {
      var owner := OwnerOf(p.rooms[id]);
      var left := Released(p.index, Occupants(p.rooms[id].slots), owner);
      assert Without(p.index, Occupants(p.rooms[id].slots), owner, left);
      WrittenInstalls(p, left, [], owner, state);
      NothingReleased(left, owner);
    }
  }

  lemma NothingReleased(index: map<Account, Entry>, owner: Owner)
    ensures Released(index, [], owner) == index
  {}

  /** A room is removed exactly when it is the one the client read; the owner's entries of the accounts go with it. */
  lemma RemoveEffect(p: Projection, id: PublicId, expected: Expectation, accounts: seq<Account>, owner: Owner)
    ensures var result := Remove(p, id, expected, accounts, owner);
      (result.1.Ok? <==>
        id in p.rooms ==> p.rooms[id].room.session == expected.session && p.rooms[id].revision == expected.revision) &&
      (if result.1.Ok? && id in p.rooms then
         result.0.now == p.now && result.0.rooms == p.rooms - {id} && Without(p.index, accounts, owner, result.0.index)
       else result.0 == p)
  {}

  /** Rooms and entries go when their deadline is reached, and no others. */
  lemma AdvanceEffect(p: Projection, time: Time, id: PublicId, a: Account)
    ensures time <= p.now ==> RoomProjection.Advance(p, time) == p
    ensures var q := RoomProjection.Advance(p, time);
      p.now < time ==>
      q.now == time && (id in q.rooms <==> id in p.rooms && time < p.rooms[id].expiresAt) &&
      (id in q.rooms ==> q.rooms[id] == p.rooms[id]) &&
      (a in q.index <==> a in p.index && time < p.index[a].deadline) && (a in q.index ==> q.index[a] == p.index[a])
  {}
}
