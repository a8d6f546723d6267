/** Room blobs and the account-to-room index behind the compare-and-set and remove scripts. */
module RoomProjection {
  import opened Basics
  import opened RealtimeTypes
  import opened RoomSlots

  datatype PublicId = PublicId(id: nat)

  datatype RoomSession = RoomSession(uuid: nat)

  /** The durable room and hosting session a projection shows. */
  datatype Room = Room(publicId: PublicId, epoch: nat, session: RoomSession, host: Account, capacity: nat,
                       settings: string)

  datatype RoomState = RoomState(
    room: Room,
    revision: nat,
    slots: Slots,
    round: Option<nat>,
    participants: set<Account>,
    expiresAt: Time)

  datatype Owner = Owner(publicId: PublicId, epoch: nat, session: RoomSession)

  datatype Entry = Entry(owner: Owner, deadline: Time)

  datatype Projection = Projection(now: Time, rooms: map<PublicId, RoomState>, index: map<Account, Entry>)

  /** What a client read: the session and revision its write depends on. */
  datatype Expectation = Expectation(session: RoomSession, revision: nat)

  datatype Reply = Ok | InvalidEpoch | Exists | EpochFenced | NotFound | Fenced | AccountConflict

  function OwnerOf(state: RoomState): Owner { Owner(state.room.publicId, state.room.epoch, state.room.session) }

  /** What constructing a room state checks. */
  predicate ValidState(state: RoomState) {
    ValidSlots(state.slots) && |state.slots| == state.room.capacity && state.room.epoch >= 1 &&
    state.room.host in Accounts(state.slots) && state.participants <= Accounts(state.slots)
  }

  // ---------------------------------------------------------------- account keys

  /** The occupants in slot order. */
  function Occupants(slots: Slots): seq<Account> {
    if slots == [] then []
    else (if slots[0].account.Some? then [slots[0].account.value] else []) + Occupants(slots[1..])
  }

  lemma {:induction false} OccupantsAreAccounts(slots: Slots, a: Account)
    ensures a in Occupants(slots) <==> a in Accounts(slots)
  {
    if slots != [] {
      OccupantsAreAccounts(slots[1..], a);
      assert forall i :: 0 <= i < |slots[1..]| ==> slots[1..][i] == slots[i + 1];
      if a in Accounts(slots) {
        var i :| 0 <= i < |slots| && slots[i].account == Some(a);
        if i > 0 { assert slots[1..][i - 1].account == Some(a); }
      }
      if a in Accounts(slots[1..]) {
        var i :| 0 <= i < |slots[1..]| && slots[1..][i].account == Some(a);
        assert slots[i + 1].account == Some(a);
      }
    }
  }

  /** The index once the owner's entries of the given accounts are deleted. */
  function Released(index: map<Account, Entry>, accounts: seq<Account>, owner: Owner): map<Account, Entry> {
    map a | a in index && !(a in accounts && index[a].owner == owner) :: index[a]
  }

  method Release(index: map<Account, Entry>, accounts: seq<Account>, owner: Owner) returns (left: map<Account, Entry>)
    ensures left == Released(index, accounts, owner)
  {
    left := index;
    for i := 0 to |accounts|
      invariant left == Released(index, accounts[..i], owner)
    {
      assert accounts[..i + 1] == accounts[..i] + [accounts[i]];
      if accounts[i] in left && left[accounts[i]].owner == owner { left := left - {accounts[i]}; }
    }
    assert accounts[..|accounts|] == accounts;
  }

  /** An entry that keeps the account out: another room's, or this public id's at the same or a later epoch. */
  predicate Blocks(index: map<Account, Entry>, a: Account, owner: Owner) {
    a in index && index[a].owner != owner &&
    (index[a].owner.publicId != owner.publicId || index[a].owner.epoch >= owner.epoch)
  }

  predicate Conflicts(index: map<Account, Entry>, accounts: seq<Account>, owner: Owner) {
    exists i :: 0 <= i < |accounts| && Blocks(index, accounts[i], owner)
  }

  method FindConflict(index: map<Account, Entry>, accounts: seq<Account>, owner: Owner) returns (found: bool)
    ensures found <==> Conflicts(index, accounts, owner)
  {
    for i := 0 to |accounts|
      invariant !Conflicts(index, accounts[..i], owner)
    {
      if Blocks(index, accounts[i], owner) { return true; }
    }
    assert accounts[..|accounts|] == accounts;
    return false;
  }

  /** Setting a key with a deadline that has passed leaves it absent. */
  function Reserved(index: map<Account, Entry>, accounts: seq<Account>, entry: Entry, now: Time): map<Account, Entry> {
    if entry.deadline > now then
      map a | a in index.Keys + (set b | b in accounts) :: if a in accounts then entry else index[a]
    else
      map a | a in index && a !in accounts :: index[a]
  }

  method Reserve(index: map<Account, Entry>, accounts: seq<Account>, entry: Entry, now: Time)
    returns (after: map<Account, Entry>)
    ensures after == Reserved(index, accounts, entry, now)
  {
    after := index;
    for i := 0 to |accounts|
      invariant after == Reserved(index, accounts[..i], entry, now)
    {
      assert accounts[..i + 1] == accounts[..i] + [accounts[i]];
      after := if entry.deadline > now then after[accounts[i] := entry] else after - {accounts[i]};
    }
    assert accounts[..|accounts|] == accounts;
  }

  // ---------------------------------------------------------------- the scripts

  function Stored(rooms: map<PublicId, RoomState>, state: RoomState, now: Time): map<PublicId, RoomState> {
    if state.expiresAt > now then rooms[state.room.publicId := state] else rooms - {state.room.publicId}
  }

  /** The tail both branches share once the fences have passed. */
  function Written(p: Projection, index: map<Account, Entry>, previous: seq<Account>, previousOwner: Owner,
                   state: RoomState): (Projection, Reply) {
    var accounts, owner := Occupants(state.slots), OwnerOf(state);
    if Conflicts(index, accounts, owner) then (p.(index := index), AccountConflict)
    else
      (Projection(p.now, Stored(p.rooms, state, p.now),
         Reserved(Released(index, previous, previousOwner), accounts, Entry(owner, state.expiresAt), p.now)), Ok)
  }

  /** Publishing a room: the indexes of an older epoch's room go first, then accounts are checked. */
  function Create(p: Projection, state: RoomState): (Projection, Reply) {
    var id := state.room.publicId;
    if state.room.epoch < 1 then (p, InvalidEpoch)
    else if id !in p.rooms then Written(p, p.index, [], OwnerOf(state), state)
    else
      var current := p.rooms[id];
      if current.room.session == state.room.session && current.room.epoch == state.room.epoch then (p, Exists)
      else if current.room.epoch >= state.room.epoch then (p, EpochFenced)
      else Written(p, Released(p.index, Occupants(current.slots), OwnerOf(current)), [], OwnerOf(current), state)
  }

  predicate Outdated(current: RoomState, expected: Expectation, state: RoomState) {
    current.room.session != expected.session || current.room.epoch > state.room.epoch ||
    (current.room.epoch == state.room.epoch && state.room.session != expected.session)
  }

  function Replace(p: Projection, expected: Expectation, previous: seq<Account>, state: RoomState): (Projection,
                   Reply) {
    var id := state.room.publicId;
    if state.room.epoch < 1 then (p, InvalidEpoch)
    else if id !in p.rooms then (p, NotFound)
    else if Outdated(p.rooms[id], expected, state) then (p, EpochFenced)
    else if p.rooms[id].revision != expected.revision then (p, Fenced)
    else Written(p, p.index, previous, OwnerOf(p.rooms[id]), state)
  }

  function Remove(p: Projection, id: PublicId, expected: Expectation, accounts: seq<Account>,
                  owner: Owner): (Projection, Reply) {
    if id !in p.rooms then (p, Ok)
    else if p.rooms[id].room.session != expected.session then (p, EpochFenced)
    else if p.rooms[id].revision != expected.revision then (p, Fenced)
    else (p.(rooms := p.rooms - {id}, index := Released(p.index, accounts, owner)), Ok)
  }

  function Advance(p: Projection, time: Time): Projection {
    if time <= p.now then p
    else Projection(time,
      map id | id in p.rooms && p.rooms[id].expiresAt > time :: p.rooms[id],
      map a | a in p.index && p.index[a].deadline > time :: p.index[a])
  }

  class Store {
    var now: Time
    var rooms: map<PublicId, RoomState>
    var index: map<Account, Entry>

    ghost function Contents(): Projection
      reads this
    {
      Projection(now, rooms, index)
    }

    constructor (now: Time)
      ensures Contents() == Projection(now, map[], map[])
    {
      this.now := now;
      rooms, index := map[], map[];
    }

    /** One script for both uses: without an expectation it creates, with one it replaces. */
    method CompareAndSet(expected: Option<Expectation>, previous: seq<Account>, state: RoomState) returns (reply: Reply)
      requires expected.None? ==> previous == []
      modifies this`rooms, this`index
      ensures expected.None? ==> (Contents(), reply) == Create(old(Contents()), state)
      ensures expected.Some? ==> (Contents(), reply) == Replace(old(Contents()), expected.value, previous, state)
    {
      hide Released, Reserved, Conflicts, Occupants;
      var id, owner := state.room.publicId, OwnerOf(state);
      var previousOwner := owner;
      if state.room.epoch < 1 { return InvalidEpoch; }
      if expected.None? {
        if id in rooms {
          var current := rooms[id];
          if current.room.session == state.room.session && current.room.epoch == state.room.epoch { return Exists; }
          if current.room.epoch >= state.room.epoch { return EpochFenced; }
          previousOwner := OwnerOf(current);
          index := Release(index, Occupants(current.slots), previousOwner);
        }
      } else {
        if id !in rooms { return NotFound; }
        previousOwner := OwnerOf(rooms[id]);
        if Outdated(rooms[id], expected.value, state) { return EpochFenced; }
        if rooms[id].revision != expected.value.revision { return Fenced; }
      }
      var accounts := Occupants(state.slots);
      var conflict := FindConflict(index, accounts, owner);
      if conflict { return AccountConflict; }
      index := Release(index, previous, previousOwner);
      rooms := Stored(rooms, state, now);
      index := Reserve(index, accounts, Entry(owner, state.expiresAt), now);
      reply := Ok;
    }

    method RemoveRoom(id: PublicId, expected: Expectation, accounts: seq<Account>, owner: Owner) returns (reply: Reply)
      modifies this`rooms, this`index
      ensures (Contents(), reply) == Remove(old(Contents()), id, expected, accounts, owner)
    {
      hide Released;
      if id !in rooms { return Ok; }
      if rooms[id].room.session != expected.session { return EpochFenced; }
      if rooms[id].revision != expected.revision { return Fenced; }
      rooms := rooms - {id};
      index := Release(index, accounts, owner);
      reply := Ok;
    }
  }
}
