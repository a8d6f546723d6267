/** An account's index entry names the one live room whose slots hold it. */
module RoomIndex {
  import opened Basics
  import opened RealtimeTypes
  import opened RoomSlots
  import opened RoomProjection

  // ---------------------------------------------------------------- invariant

  /** The entry names a live room that holds the account, and expires with it. */
  ghost predicate Backed(p: Projection, a: Account, entry: Entry) {
    var id := entry.owner.publicId;
    id in p.rooms && OwnerOf(p.rooms[id]) == entry.owner && a in Accounts(p.rooms[id].slots) &&
    entry.deadline == p.rooms[id].expiresAt
  }

  ghost predicate RoomIndexed(p: Projection, id: PublicId)
    requires id in p.rooms
  {
    var state := p.rooms[id];
    state.room.publicId == id && state.expiresAt > p.now && ValidState(state) &&
    forall a :: a in Accounts(state.slots) ==> a in p.index && p.index[a].owner == OwnerOf(state)
  }

  ghost predicate Indexed(p: Projection) {
    (forall a :: a in p.index ==> Backed(p, a, p.index[a])) && (forall id :: id in p.rooms ==> RoomIndexed(p, id))
  }

  /** The entries of other public ids. */
  function Others(index: map<Account, Entry>, id: PublicId): map<Account, Entry> {
    map a | a in index && index[a].owner.publicId != id :: index[a]
  }

  // ---------------------------------------------------------------- releasing and installing

  lemma ReleaseClears(p: Projection, id: PublicId, accounts: seq<Account>)
    requires Indexed(p) && id in p.rooms
    requires forall a :: a in accounts <==> a in Accounts(p.rooms[id].slots)
    ensures Released(p.index, accounts, OwnerOf(p.rooms[id])) == Others(p.index, id)
  {
    hide Accounts, ValidState;
    assert RoomIndexed(p, id);
    forall a | a in p.index
      ensures (a in accounts && p.index[a].owner == OwnerOf(p.rooms[id])) <==> p.index[a].owner.publicId == id
    {
      assert Backed(p, a, p.index[a]);
    }
  }

  lemma AbsentHasNoEntries(p: Projection, id: PublicId)
    requires Indexed(p) && id !in p.rooms
    ensures Others(p.index, id) == p.index
  {
    hide Accounts, ValidState;
    forall a | a in p.index ensures p.index[a].owner.publicId != id { assert Backed(p, a, p.index[a]); }
  }

  /** Replacing one public id's room and entries, when none of its accounts is in another room. */
  lemma InstallKeeps(p: Projection, state: RoomState)
    requires Indexed(p) && ValidState(state)
    requires forall a :: a in Accounts(state.slots) ==> a !in Others(p.index, state.room.publicId)
    ensures Indexed(Projection(p.now, Stored(p.rooms, state, p.now),
      Reserved(Others(p.index, state.room.publicId), Occupants(state.slots), Entry(OwnerOf(state), state.expiresAt),
        p.now)))
  {
    hide Accounts, ValidState, Occupants;
    var id, entry := state.room.publicId, Entry(OwnerOf(state), state.expiresAt);
    var q := Projection(p.now, Stored(p.rooms, state, p.now),
      Reserved(Others(p.index, id), Occupants(state.slots), entry, p.now));
    forall a ensures a in Occupants(state.slots) <==> a in Accounts(state.slots) {
      OccupantsAreAccounts(state.slots, a);
    }
    forall a | a in q.index ensures Backed(q, a, q.index[a]) {
      if a !in Occupants(state.slots) { assert Backed(p, a, p.index[a]); }
    }
    forall other | other in q.rooms ensures RoomIndexed(q, other) {
      if other != id { assert RoomIndexed(p, other); }
    }
  }

  lemma RemovalKeeps(p: Projection, id: PublicId)
    requires Indexed(p)
    ensures Indexed(Projection(p.now, p.rooms - {id}, Others(p.index, id)))
  {
    hide Accounts, ValidState;
    var q := Projection(p.now, p.rooms - {id}, Others(p.index, id));
    forall a | a in q.index ensures Backed(q, a, q.index[a]) { assert Backed(p, a, p.index[a]); }
    forall other | other in q.rooms ensures RoomIndexed(q, other) { assert RoomIndexed(p, other); }
  }

  // ---------------------------------------------------------------- scripts

  lemma NoConflictNoOthers(index: map<Account, Entry>, state: RoomState, a: Account)
    requires !Conflicts(index, Occupants(state.slots), OwnerOf(state)) && a in Accounts(state.slots)
    ensures a !in Others(index, state.room.publicId)
  {
    hide Occupants, Accounts;
    OccupantsAreAccounts(state.slots, a);
    var i :| 0 <= i < |Occupants(state.slots)| && Occupants(state.slots)[i] == a;
    assert !Blocks(index, Occupants(state.slots)[i], OwnerOf(state));
  }

  /** Every occupant that the new state drops was among those the client releases. */
  ghost predicate ReleasesDropped(p: Projection, previous: seq<Account>, state: RoomState)
    requires state.room.publicId in p.rooms
  {
    forall a :: a in Accounts(p.rooms[state.room.publicId].slots) ==> a in previous || a in Accounts(state.slots)
  }

  /** Reserving covers the new occupants, so only the other entries matter. */
  lemma ReservedAgree(x: map<Account, Entry>, y: map<Account, Entry>, accounts: seq<Account>, entry: Entry, now: Time)
    requires forall a :: a !in accounts ==> (a in x <==> a in y) && (a in x ==> x[a] == y[a])
    ensures Reserved(x, accounts, entry, now) == Reserved(y, accounts, entry, now)
  {}

  lemma ReleasedAgree(p: Projection, previous: seq<Account>, state: RoomState)
    requires Indexed(p) && state.room.publicId in p.rooms && ReleasesDropped(p, previous, state)
    ensures var id := state.room.publicId;
      var released := Released(p.index, previous, OwnerOf(p.rooms[id]));
      forall a :: a !in Occupants(state.slots) ==>
        (a in released <==> a in Others(p.index, id)) && (a in released ==> released[a] == Others(p.index, id)[a])
  {
    hide Accounts, ValidState, Occupants;
    var id := state.room.publicId;
    assert RoomIndexed(p, id);
    forall a | a in p.index && a !in Occupants(state.slots)
      ensures (a in previous && p.index[a].owner == OwnerOf(p.rooms[id])) <==> p.index[a].owner.publicId == id
    {
      assert Backed(p, a, p.index[a]);
      OccupantsAreAccounts(state.slots, a);
    }
  }

  /** A committed replacement keeps the index exactly when the client releases every occupant it drops. */
  lemma ReplaceKeepsExactly(p: Projection, expected: Expectation, previous: seq<Account>, state: RoomState)
    requires Indexed(p) && ValidState(state) && Replace(p, expected, previous, state).1.Ok?
    ensures Indexed(Replace(p, expected, previous, state).0) <==> ReleasesDropped(p, previous, state)
  {
    hide Indexed, Released, Reserved, Conflicts, Occupants, Accounts, ValidState, Others;
    var id := state.room.publicId;
    if ReleasesDropped(p, previous, state) {
      var entry := Entry(OwnerOf(state), state.expiresAt);
      ReleasedAgree(p, previous, state);
      ReservedAgree(Released(p.index, previous, OwnerOf(p.rooms[id])), Others(p.index, id), Occupants(state.slots),
        entry, p.now);
      forall a | a in Accounts(state.slots) ensures a !in Others(p.index, id) { NoConflictNoOthers(p.index, state, a); }
      InstallKeeps(p, state);
    } else {
      var a :| a in Accounts(p.rooms[id].slots) && a !in previous && a !in Accounts(state.slots);
      DroppedIsStranded(p, expected, previous, state, a);
    }
  }

  /** A dropped occupant that is not released keeps an entry that no room backs. */
  lemma DroppedIsStranded(p: Projection, expected: Expectation, previous: seq<Account>, state: RoomState, a: Account)
    requires Indexed(p) && Replace(p, expected, previous, state).1.Ok?
    requires a in Accounts(p.rooms[state.room.publicId].slots) && a !in previous && a !in Accounts(state.slots)
    ensures !Indexed(Replace(p, expected, previous, state).0)
  {
    hide Accounts, ValidState, Occupants, Conflicts;
    var id := state.room.publicId;
    var q := Replace(p, expected, previous, state).0;
    assert RoomIndexed(p, id);
    OccupantsAreAccounts(state.slots, a);
    assert a in q.index && q.index[a] == p.index[a];
    assert !Backed(q, a, q.index[a]);
  }

  lemma ReplaceKeeps(p: Projection, expected: Expectation, previous: seq<Account>, state: RoomState)
    requires Indexed(p) && ValidState(state)
    requires Replace(p, expected, previous, state).1.Ok? ==> ReleasesDropped(p, previous, state)
    ensures Indexed(Replace(p, expected, previous, state).0)
  {
    hide Indexed, ReleasesDropped, Released, Reserved, Conflicts, Occupants, ValidState;
    if Replace(p, expected, previous, state).1.Ok? { ReplaceKeepsExactly(p, expected, previous, state); }
  }

  /** A create over a live older room while one of its accounts sits elsewhere: the indexes go, the room stays. */
  ghost predicate Spoils(p: Projection, state: RoomState) {
    var id := state.room.publicId;
    id in p.rooms && p.rooms[id].room.epoch < state.room.epoch &&
    exists a :: a in Accounts(state.slots) && a in p.index && p.index[a].owner.publicId != id
  }

  lemma ReleasedByCreate(p: Projection, id: PublicId)
    requires Indexed(p) && id in p.rooms
    ensures Released(p.index, Occupants(p.rooms[id].slots), OwnerOf(p.rooms[id])) == Others(p.index, id)
  {
    hide Indexed, Released, Occupants, Accounts, Others;
    forall a ensures a in Occupants(p.rooms[id].slots) <==> a in Accounts(p.rooms[id].slots) {
      OccupantsAreAccounts(p.rooms[id].slots, a);
    }
    ReleaseClears(p, id, Occupants(p.rooms[id].slots));
  }

  lemma OthersConflict(index: map<Account, Entry>, state: RoomState)
    ensures Conflicts(Others(index, state.room.publicId), Occupants(state.slots), OwnerOf(state)) <==>
      exists a :: a in Accounts(state.slots) && a in index && index[a].owner.publicId != state.room.publicId
  {
    hide Occupants, Accounts;
    var accounts, owner := Occupants(state.slots), OwnerOf(state);
    var others := Others(index, state.room.publicId);
    if Conflicts(others, accounts, owner) {
      var i :| 0 <= i < |accounts| && Blocks(others, accounts[i], owner);
      OccupantsAreAccounts(state.slots, accounts[i]);
      assert accounts[i] in accounts && accounts[i] in Accounts(state.slots);
    }
    if a :| a in Accounts(state.slots) && a in index && index[a].owner.publicId != state.room.publicId {
      OccupantsAreAccounts(state.slots, a);
      var i :| 0 <= i < |accounts| && accounts[i] == a;
      assert Blocks(others, accounts[i], owner);
    }
  }

  lemma OthersTwice(index: map<Account, Entry>, id: PublicId)
    ensures Others(Others(index, id), id) == Others(index, id)
    ensures forall owner :: Released(Others(index, id), [], owner) == Others(index, id)
  {}

  /** Creating keeps the index exactly when it does not spoil an older room. */
  lemma CreateKeepsUnlessSpoiled(p: Projection, state: RoomState)
    requires Indexed(p) && ValidState(state)
    ensures Indexed(Create(p, state).0) <==> !Spoils(p, state)
    ensures Spoils(p, state) ==> Create(p, state).1 == AccountConflict
  {
    hide Indexed, Released, Reserved, Conflicts, Occupants, Accounts, Others, ValidState;
    var id := state.room.publicId;
    assert state.room.epoch >= 1 by { ValidEpoch(state); }
    OthersConflict(p.index, state);
    OthersTwice(p.index, id);
    if id !in p.rooms {
      AbsentHasNoEntries(p, id);
      CreateInstalls(p, state);
    } else {
      ReleasedByCreate(p, id);
      if p.rooms[id].room.epoch < state.room.epoch {
        if Spoils(p, state) {
          HostIsOrphaned(p, id);
        } else {
          CreateInstalls(p, state);
        }
      }
    }
  }

  lemma ValidEpoch(state: RoomState)
    requires ValidState(state)
    ensures state.room.epoch >= 1
  {}

  lemma CreateInstalls(p: Projection, state: RoomState)
    requires Indexed(p) && ValidState(state)
    ensures var others := Others(p.index, state.room.publicId);
      !Conflicts(others, Occupants(state.slots), OwnerOf(state)) ==>
      Indexed(Projection(p.now, Stored(p.rooms, state, p.now),
        Reserved(others, Occupants(state.slots), Entry(OwnerOf(state), state.expiresAt), p.now)))
  {
    hide Indexed, Reserved, Conflicts, Occupants, Accounts, Others, ValidState;
    var id := state.room.publicId;
    var others := Others(p.index, id);
    if !Conflicts(others, Occupants(state.slots), OwnerOf(state)) {
      OthersTwice(p.index, id);
      forall a | a in Accounts(state.slots) ensures a !in others { NoConflictNoOthers(others, state, a); }
      InstallKeeps(p, state);
    }
  }

  /** A room whose entries are gone is no longer indexed: its host has none. */
  lemma HostIsOrphaned(p: Projection, id: PublicId)
    requires Indexed(p) && id in p.rooms
    ensures !Indexed(p.(index := Others(p.index, id)))
  {
    hide Accounts;
    var q := p.(index := Others(p.index, id));
    assert RoomIndexed(p, id);
    var host := p.rooms[id].room.host;
    assert host in Accounts(p.rooms[id].slots) && host !in q.index;
    assert !RoomIndexed(q, id);
  }

  lemma RemoveKeeps(p: Projection, id: PublicId, expected: Expectation, accounts: seq<Account>, owner: Owner)
    requires Indexed(p)
    requires id in p.rooms && Remove(p, id, expected, accounts, owner).1.Ok? ==>
      owner == OwnerOf(p.rooms[id]) && forall a :: a in accounts <==> a in Accounts(p.rooms[id].slots)
    ensures Indexed(Remove(p, id, expected, accounts, owner).0)
  {
    hide Indexed, Released, Accounts, Others;
    if id in p.rooms && Remove(p, id, expected, accounts, owner).1.Ok? {
      ReleaseClears(p, id, accounts);
      RemovalKeeps(p, id);
    }
  }

  lemma AdvanceKeeps(p: Projection, time: Time)
    requires Indexed(p)
    ensures Indexed(Advance(p, time))
  {
    hide Accounts, ValidState;
    var q := Advance(p, time);
    if time > p.now {
      forall a | a in q.index ensures Backed(q, a, q.index[a]) { assert Backed(p, a, p.index[a]); }
      forall id | id in q.rooms ensures RoomIndexed(q, id) {
        assert RoomIndexed(p, id);
        forall a | a in Accounts(q.rooms[id].slots) ensures a in q.index { assert Backed(p, a, p.index[a]); }
      }
    }
  }

  // ---------------------------------------------------------------- consequences

  /** An account occupies slots in at most one live room. */
  lemma OneRoomPerAccount(p: Projection, x: PublicId, y: PublicId, a: Account)
    requires Indexed(p) && x in p.rooms && y in p.rooms
    requires a in Accounts(p.rooms[x].slots) && a in Accounts(p.rooms[y].slots)
    ensures x == y
  {
    hide Accounts, ValidState;
    assert RoomIndexed(p, x) && RoomIndexed(p, y);
  }

  /** An index entry equals a room's owner exactly when the room holds the account. */
  lemma EntryIffOccupant(p: Projection, id: PublicId, a: Account)
    requires Indexed(p) && id in p.rooms
    ensures a in Accounts(p.rooms[id].slots) <==> a in p.index && p.index[a].owner == OwnerOf(p.rooms[id])
  {
    hide Accounts, ValidState;
    assert RoomIndexed(p, id);
    if a in p.index { assert Backed(p, a, p.index[a]); }
  }
}
