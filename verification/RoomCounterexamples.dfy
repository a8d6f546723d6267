/** Concrete stores on which the index is lost, showing why the conditions of the room theorems are needed. */
module RoomCounterexamples {
  import opened Basics
  import opened RealtimeTypes
  import opened RoomSlots
  import opened RoomProjection
  import opened RoomIndex

  const FIRST := Account(1)
  const SECOND := Account(2)

  function Solo(id: nat, epoch: nat, session: nat, account: Account): RoomState {
    RoomState(Room(PublicId(id), epoch, RoomSession(session), account, 1, ""), 0,
      [Occupied(0, NotReady, account)], None, {}, 100)
  }

  lemma SoloIsValid(id: nat, epoch: nat, session: nat, account: Account)
    requires epoch >= 1
    ensures ValidState(Solo(id, epoch, session, account)) &&
      Accounts(Solo(id, epoch, session, account).slots) == {account}
  {
    var slots := [Occupied(0, NotReady, account)];
    assert slots[0].account == Some(account);
  }

  /** Two rooms, one account each, both indexed. */
  function TwoRooms(): Projection {
    var x, y := Solo(1, 1, 1, FIRST), Solo(2, 2, 2, SECOND);
    Projection(0, map[PublicId(1) := x, PublicId(2) := y],
      map[FIRST := Entry(OwnerOf(x), 100), SECOND := Entry(OwnerOf(y), 100)])
  }

  lemma TwoRoomsAreIndexed()
    ensures Indexed(TwoRooms())
  {
    SoloIsValid(1, 1, 1, FIRST);
    SoloIsValid(2, 2, 2, SECOND);
    var p := TwoRooms();
    assert RoomIndexed(p, PublicId(1)) && RoomIndexed(p, PublicId(2));
  }

  /**
   * Publishing a later epoch of the first room for an account of the second is refused, yet the first room loses its
   * index.
   */
  lemma RefusedCreateSpoilsIndex()
    ensures var state := Solo(1, 3, 3, SECOND);
      Indexed(TwoRooms()) && ValidState(state) && Create(TwoRooms(), state).1 == AccountConflict &&
      !Indexed(Create(TwoRooms(), state).0)
  {
    hide Indexed, Create, ValidState, Accounts;
    var p, state := TwoRooms(), Solo(1, 3, 3, SECOND);
    TwoRoomsAreIndexed();
    SoloIsValid(1, 3, 3, SECOND);
    assert SECOND in Accounts(state.slots) && SECOND in p.index;
    assert Spoils(p, state);
    CreateKeepsUnlessSpoiled(p, state);
  }

  // ---------------------------------------------------------------- a session published twice

  function Duo(second: Slot): RoomState {
    RoomState(Room(PublicId(1), 1, RoomSession(1), FIRST, 2, ""), 0, [Occupied(0, NotReady, FIRST), second], None, {},
      100)
  }

  function Republished(): Projection {
    var current := Duo(Occupied(1, NotReady, SECOND));
    Projection(0, map[PublicId(1) := current],
      map[FIRST := Entry(OwnerOf(current), 100), SECOND := Entry(OwnerOf(current), 100)])
  }

  lemma DuoAccounts(second: Slot)
    requires second.account == None || second.account == Some(SECOND)
    ensures Accounts(Duo(second).slots) == {FIRST} + OccupantOf(second)
    ensures Occupants(Duo(second).slots) == [FIRST] + if second.account.Some? then [SECOND] else []
  {
    var slots := Duo(second).slots;
    assert slots[0].account == Some(FIRST) && slots[1] == second;
    assert slots[1..] == [second] && slots[1..][1..] == [];
    assert Occupants([second]) == if second.account.Some? then [SECOND] else [] by { assert [second][1..] == []; }
  }

  lemma RepublishedIsIndexed()
    ensures Indexed(Republished())
  {
    hide Accounts, Occupants;
    DuoAccounts(Occupied(1, NotReady, SECOND));
    assert RoomIndexed(Republished(), PublicId(1));
  }

  /**
   * A snapshot of the earlier publication has the stored session and revision but other slots: its write drops an
   * occupant.
   */
  lemma RepublishedSessionLosesOccupant()
    ensures var stale := Duo(Vacant(1));
      var next := stale.(revision := 1);
      var result := Replace(Republished(), Expectation(stale.room.session, stale.revision), Occupants(stale.slots),
        next);
      Indexed(Republished()) && ValidState(next) && result.1 == Ok && !Indexed(result.0)
  {
    hide Occupants, Accounts;
    var stale := Duo(Vacant(1));
    var next := stale.(revision := 1);
    RepublishedIsIndexed();
    DuoAccounts(Vacant(1));
    var p := Republished();
    var result := Replace(p, Expectation(stale.room.session, stale.revision), Occupants(stale.slots), next);
    assert Occupants(next.slots) == [FIRST];
    assert !Blocks(p.index, FIRST, OwnerOf(next));
    assert result.1 == Ok;
    assert SECOND in result.0.index && !Backed(result.0, SECOND, result.0.index[SECOND]);
  }
}
