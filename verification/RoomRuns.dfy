/** Interleaved clients: every write is computed from a snapshot read earlier, and only the commit is atomic. */
module RoomRuns {
  import opened Basics
  import opened RealtimeTypes
  import opened RoomSlots
  import opened RoomProjection
  import opened RoomIndex

  /** Durable facts: a hosting session belongs to one public id at one epoch. */
  type Hosting = RoomSession -> Owner

  /** The store, and per public id every state it ever held: what clients may still be working from. */
  datatype World = World(store: Projection, logs: map<PublicId, seq<RoomState>>)

  datatype Event =
    | Clock(time: Time)
    | Publish(state: RoomState)
    | Commit(id: PublicId, read: nat, mutation: Mutation, room: Room, deadline: Time)
    | Rewrite(id: PublicId, read: nat, reread: nat, state: RoomState)
    | Delete(id: PublicId, read: nat, reread: nat)

  function LogOf(w: World, id: PublicId): seq<RoomState> { if id in w.logs then w.logs[id] else [] }

  function ExpectationOf(state: RoomState): Expectation { Expectation(state.room.session, state.revision) }

  /** The state a mutation computes from a snapshot; None when it raises. */
  function Mutated(state: RoomState, mutation: Mutation, room: Room, deadline: Time): Option<RoomState> {
    var outcome := Apply(mutation, state.slots);
    var durable := mutation.Join? || mutation.Leave?;
    if outcome.Rejected? || (mutation.Lock? && state.room.host != mutation.actor) then None
    else
      var updated := if durable then state.(room := room) else state;
      var next := if outcome.Unchanged? then updated
        else updated.(slots := outcome.slots, revision := state.revision + 1,
                      expiresAt := if mutation.Join? then deadline else state.expiresAt);
      if ValidState(next) then Some(next) else None
  }

  function Appended(w: World, result: (Projection, Reply), state: RoomState): World {
    if result.1.Ok? then World(result.0, w.logs[state.room.publicId := LogOf(w, state.room.publicId) + [state]])
    else w.(store := result.0)
  }

  function StepOf(w: World, e: Event): (Projection, Reply)
    requires Available(w, e)
  {
    match e
    case Clock(time) => (Advance(w.store, time), Ok)
    case Publish(state) => Create(w.store, state)
    case Commit(id, read, mutation, room, deadline) =>
      var snapshot := LogOf(w, id)[read];
      var next := Mutated(snapshot, mutation, room, deadline);
      if next.None? then (w.store, NotFound)
      else Replace(w.store, ExpectationOf(snapshot), Occupants(snapshot.slots), next.value)
    case Rewrite(id, read, reread, state) =>
      Replace(w.store, ExpectationOf(LogOf(w, id)[read]), Occupants(LogOf(w, id)[reread].slots), state)
    case Delete(id, read, reread) =>
      var snapshot, again := LogOf(w, id)[read], LogOf(w, id)[reread];
      Remove(w.store, id, ExpectationOf(snapshot), Occupants(again.slots),
        Owner(id, again.room.epoch, snapshot.room.session))
  }

  function Step(w: World, e: Event): World
    requires Available(w, e)
  {
    var result := StepOf(w, e);
    match e
    case Publish(state) => Appended(w, result, state)
    case Rewrite(_, _, _, state) => Appended(w, result, state)
    case Commit(id, read, mutation, room, deadline) =>
      var next := Mutated(LogOf(w, id)[read], mutation, room, deadline);
      if next.None? then w else Appended(w, result, next.value)
    case _ => w.(store := result.0)
  }

  /** Snapshots were read before the write, a second read after the first. */
  predicate Available(w: World, e: Event) {
    match e
    case Clock(_) => true
    case Publish(_) => true
    case Commit(id, read, _, _, _) => read < |LogOf(w, id)|
    case Rewrite(id, read, reread, _) => read <= reread < |LogOf(w, id)|
    case Delete(id, read, reread) => read <= reread < |LogOf(w, id)|
  }

  ghost predicate Unpublished(w: World, id: PublicId, session: RoomSession) {
    forall i :: 0 <= i < |LogOf(w, id)| ==> LogOf(w, id)[i].room.session != session
  }

  /** A state that continues its snapshot's session moves the revision with the slots; another session is new. */
  ghost predicate Continues(w: World, snapshot: RoomState, state: RoomState) {
    if state.room.session == snapshot.room.session then
      state.revision > snapshot.revision || (state.revision == snapshot.revision && state.slots == snapshot.slots)
    else Unpublished(w, state.room.publicId, state.room.session)
  }

  /** What the clients' durable data guarantees about a write. */
  ghost predicate Allowed(hosting: Hosting, w: World, e: Event)
    requires Available(w, e)
  {
    match e
    case Clock(_) => true
    case Delete(_, _, _) => true
    case Publish(state) =>
      ValidState(state) && hosting(state.room.session) == OwnerOf(state) &&
      Unpublished(w, state.room.publicId, state.room.session) && !Spoils(w.store, state)
    case Commit(id, read, mutation, room, deadline) =>
      (mutation.Join? || mutation.Leave? ==>
        room.publicId == id && hosting(room.session) == Owner(room.publicId, room.epoch, room.session) &&
        (room.session == LogOf(w, id)[read].room.session || Unpublished(w, id, room.session)))
    case Rewrite(id, read, _, state) =>
      ValidState(state) && state.room.publicId == id && hosting(state.room.session) == OwnerOf(state) &&
      Continues(w, LogOf(w, id)[read], state)
  }

  // ---------------------------------------------------------------- logs

  ghost predicate Tenures(log: seq<RoomState>) {
    forall i, j, k :: 0 <= i <= j <= k < |log| && log[i].room.session == log[k].room.session ==>
      log[j].room.session == log[i].room.session
  }

  ghost predicate Monotone(log: seq<RoomState>) {
    forall i, j :: 0 <= i <= j < |log| && log[i].room.session == log[j].room.session ==>
      log[i].revision <= log[j].revision && (log[i].revision == log[j].revision ==> log[i].slots == log[j].slots)
  }

  ghost predicate Entries(hosting: Hosting, id: PublicId, log: seq<RoomState>) {
    forall i :: 0 <= i < |log| ==>
      ValidState(log[i]) && log[i].room.publicId == id && hosting(log[i].room.session) == OwnerOf(log[i])
  }

  ghost predicate ValidLog(hosting: Hosting, id: PublicId, log: seq<RoomState>) {
    Tenures(log) && Monotone(log) && Entries(hosting, id, log)
  }

  ghost predicate Inv(hosting: Hosting, w: World) {
    Indexed(w.store) &&
    (forall id :: id in w.logs ==> ValidLog(hosting, id, w.logs[id])) &&
    (forall id :: id in w.store.rooms ==> LogOf(w, id) != [] && w.store.rooms[id] == LogOf(w, id)[|LogOf(w, id)| - 1])
  }

  lemma AppendFresh(hosting: Hosting, id: PublicId, log: seq<RoomState>, state: RoomState)
    requires ValidLog(hosting, id, log)
    requires ValidState(state) && state.room.publicId == id && hosting(state.room.session) == OwnerOf(state)
    requires forall i :: 0 <= i < |log| ==> log[i].room.session != state.room.session
    ensures ValidLog(hosting, id, log + [state])
  {
    hide ValidState;
  }

  lemma AppendNext(hosting: Hosting, id: PublicId, log: seq<RoomState>, state: RoomState)
    requires ValidLog(hosting, id, log) && log != []
    requires ValidState(state) && state.room.publicId == id && hosting(state.room.session) == OwnerOf(state)
    requires var last := log[|log| - 1];
      state.room.session == last.room.session &&
      (state.revision > last.revision || (state.revision == last.revision && state.slots == last.slots))
    ensures ValidLog(hosting, id, log + [state])
  {
    hide ValidState;
    var last, after := log[|log| - 1], log + [state];
    assert Tenures(after) by {
      forall i, j, k | 0 <= i <= j <= k < |after| && after[i].room.session == after[k].room.session
        ensures after[j].room.session == after[i].room.session
      {
        if k == |log| && i < |log| { assert log[i].room.session == last.room.session; }
      }
    }
  }

  /** A snapshot with the stored session and revision has the stored slots, and so has every state read after it. */
  lemma SnapshotIsCurrent(hosting: Hosting, id: PublicId, log: seq<RoomState>, read: nat, reread: nat)
    requires ValidLog(hosting, id, log) && read <= reread < |log|
    requires ExpectationOf(log[read]) == ExpectationOf(log[|log| - 1])
    ensures log[read].slots == log[|log| - 1].slots && log[reread].slots == log[|log| - 1].slots
    ensures log[reread].room.session == log[|log| - 1].room.session && OwnerOf(log[reread]) == OwnerOf(log[|log| - 1])
  {
    hide ValidState;
    var last := |log| - 1;
    assert log[reread].room.session == log[read].room.session;
    assert log[read].revision <= log[reread].revision <= log[last].revision;
  }

  // ---------------------------------------------------------------- every step keeps the invariant

  lemma LogIsValid(hosting: Hosting, w: World, id: PublicId)
    requires Inv(hosting, w)
    ensures ValidLog(hosting, id, LogOf(w, id))
  {
    hide Indexed;
    if id !in w.logs { assert LogOf(w, id) == []; }
  }

  /** When a replacement commits, its snapshots have the slots stored at that moment. */
  lemma CommitSeesCurrent(hosting: Hosting, w: World, id: PublicId, read: nat, reread: nat, previous: seq<Account>,
                          state: RoomState)
    requires Inv(hosting, w) && read <= reread < |LogOf(w, id)| && state.room.publicId == id
    requires Replace(w.store, ExpectationOf(LogOf(w, id)[read]), previous, state).1.Ok?
    ensures id in w.store.rooms && w.store.rooms[id] == LogOf(w, id)[|LogOf(w, id)| - 1]
    ensures LogOf(w, id)[read].slots == w.store.rooms[id].slots && LogOf(w, id)[reread].slots == w.store.rooms[id].slots
    ensures ExpectationOf(LogOf(w, id)[read]) == ExpectationOf(w.store.rooms[id])
  {
    hide Indexed, ValidLog, Written;
    LogIsValid(hosting, w, id);
    SnapshotIsCurrent(hosting, id, LogOf(w, id), read, reread);
  }

  lemma AppendedKeeps(hosting: Hosting, w: World, result: Projection, state: RoomState)
    requires Inv(hosting, w) && Indexed(result)
    requires ValidLog(hosting, state.room.publicId, LogOf(w, state.room.publicId) + [state])
    requires result.rooms == Stored(w.store.rooms, state, w.store.now)
    ensures Inv(hosting, Appended(w, (result, Ok), state))
  {
    hide Indexed, ValidLog;
    var id := state.room.publicId;
    var after := Appended(w, (result, Ok), state);
    forall other | other in after.logs ensures ValidLog(hosting, other, after.logs[other]) {
      if other != id { assert other in w.logs; }
    }
  }

  lemma ReplacementKeeps(hosting: Hosting, w: World, id: PublicId, read: nat, reread: nat, state: RoomState)
    requires Inv(hosting, w) && read <= reread < |LogOf(w, id)|
    requires ValidState(state) && state.room.publicId == id && hosting(state.room.session) == OwnerOf(state)
    requires Continues(w, LogOf(w, id)[read], state)
    ensures var log := LogOf(w, id);
      var result := Replace(w.store, ExpectationOf(log[read]), Occupants(log[reread].slots), state);
      Inv(hosting, Appended(w, result, state))
  {
    hide Indexed, ValidLog, ValidState, Occupants, Accounts, Conflicts, Released, Reserved;
    var log := LogOf(w, id);
    var previous := Occupants(log[reread].slots);
    var result := Replace(w.store, ExpectationOf(log[read]), previous, state);
    if result.1.Ok? {
      CommitSeesCurrent(hosting, w, id, read, reread, previous, state);
      forall a ensures a in previous <==> a in Accounts(w.store.rooms[id].slots) {
        OccupantsAreAccounts(log[reread].slots, a);
      }
      RoomIndex.ReplaceKeeps(w.store, ExpectationOf(log[read]), previous, state);
      LogIsValid(hosting, w, id);
      if state.room.session == log[read].room.session {
        AppendNext(hosting, id, log, state);
      } else {
        AppendFresh(hosting, id, log, state);
      }
      AppendedKeeps(hosting, w, result.0, state);
    }
  }

  lemma PublishKeeps(hosting: Hosting, w: World, state: RoomState)
    requires Inv(hosting, w) && Allowed(hosting, w, Publish(state))
    ensures Inv(hosting, Step(w, Publish(state)))
  {
    hide Indexed, ValidLog, ValidState, Occupants, Accounts, Conflicts, Released, Reserved, Spoils;
    var id := state.room.publicId;
    CreateKeepsUnlessSpoiled(w.store, state);
    LogIsValid(hosting, w, id);
    AppendFresh(hosting, id, LogOf(w, id), state);
    var result := Create(w.store, state);
    if result.1.Ok? {
      AppendedKeeps(hosting, w, result.0, state);
    }
  }

  lemma MutationContinues(hosting: Hosting, w: World, e: Event)
    requires e.Commit? && Available(w, e) && Inv(hosting, w) && Allowed(hosting, w, e)
    ensures var next := Mutated(LogOf(w, e.id)[e.read], e.mutation, e.room, e.deadline);
      next.Some? ==>
        ValidState(next.value) && next.value.room.publicId == e.id &&
        hosting(next.value.room.session) == OwnerOf(next.value) && Continues(w, LogOf(w, e.id)[e.read], next.value)
  {
    hide Indexed, Apply, ValidState;
    LogIsValid(hosting, w, e.id);
  }

  lemma DeleteKeeps(hosting: Hosting, w: World, id: PublicId, read: nat, reread: nat)
    requires Inv(hosting, w) && read <= reread < |LogOf(w, id)|
    ensures Inv(hosting, Step(w, Delete(id, read, reread)))
  {
    hide Indexed, ValidLog, ValidState, Occupants, Accounts, Released;
    var log := LogOf(w, id);
    var accounts, owner := Occupants(log[reread].slots), Owner(id, log[reread].room.epoch, log[read].room.session);
    if id in w.store.rooms && Remove(w.store, id, ExpectationOf(log[read]), accounts, owner).1.Ok? {
      LogIsValid(hosting, w, id);
      SnapshotIsCurrent(hosting, id, log, read, reread);
      forall a ensures a in accounts <==> a in Accounts(w.store.rooms[id].slots) {
        OccupantsAreAccounts(log[reread].slots, a);
      }
      assert w.store.rooms[id].room.publicId == id by { PublicIdOf(w.store, id); }
    }
    RemoveKeeps(w.store, id, ExpectationOf(log[read]), accounts, owner);
  }

  lemma PublicIdOf(p: Projection, id: PublicId)
    requires Indexed(p) && id in p.rooms
    ensures p.rooms[id].room.publicId == id
  {
    assert RoomIndexed(p, id);
  }

  lemma StepKeeps(hosting: Hosting, w: World, e: Event)
    requires Available(w, e) && Inv(hosting, w) && Allowed(hosting, w, e)
    ensures Inv(hosting, Step(w, e))
  {
    hide ValidLog, ValidState, Create, Replace, Remove, Mutated, Continues, Indexed, Spoils, Occupants;
    match e {
      case Clock(time) => AdvanceKeeps(w.store, time);
      case Publish(state) => PublishKeeps(hosting, w, state);
      case Commit(id, read, mutation, room, deadline) =>
        MutationContinues(hosting, w, e);
        var next := Mutated(LogOf(w, id)[read], mutation, room, deadline);
        if next.Some? { ReplacementKeeps(hosting, w, id, read, read, next.value); }
      case Rewrite(id, read, reread, state) => ReplacementKeeps(hosting, w, id, read, reread, state);
      case Delete(id, read, reread) => DeleteKeeps(hosting, w, id, read, reread);
    }
  }

  // ---------------------------------------------------------------- runs

  /** Every event of the run finds its snapshots and keeps to the durable facts. */
  ghost predicate Runs(hosting: Hosting, w: World, events: seq<Event>)
    decreases |events|
  {
    events == [] ||
    (Available(w, events[0]) && Allowed(hosting, w, events[0]) && Runs(hosting, Step(w, events[0]), events[1..]))
  }

  ghost function After(hosting: Hosting, w: World, events: seq<Event>): World
    requires Runs(hosting, w, events)
    decreases |events|
  {
    if events == [] then w else After(hosting, Step(w, events[0]), events[1..])
  }

  lemma {:induction false} RunKeeps(hosting: Hosting, w: World, events: seq<Event>)
    requires Inv(hosting, w) && Runs(hosting, w, events)
    ensures Inv(hosting, After(hosting, w, events))
    decreases |events|
  {
    hide Inv, Step, Allowed, Available;
    if events != [] {
      StepKeeps(hosting, w, events[0]);
      RunKeeps(hosting, Step(w, events[0]), events[1..]);
    }
  }

  function Start(now: Time): World { World(Projection(now, map[], map[]), map[]) }

  lemma StartIsValid(hosting: Hosting, now: Time)
    ensures Inv(hosting, Start(now))
  {}

  /**
   * In every interleaving, an account sits in at most one live room, and its entry names a room exactly when the room
   * holds it.
   */
  lemma AccountsAreExclusive(hosting: Hosting, now: Time, events: seq<Event>, x: PublicId, a: Account)
    requires Runs(hosting, Start(now), events)
    ensures var store := After(hosting, Start(now), events).store;
      x in store.rooms ==>
        (a in Accounts(store.rooms[x].slots) <==>
          a in store.index && store.index[a].owner == OwnerOf(store.rooms[x])) &&
        (a in Accounts(store.rooms[x].slots) ==>
          forall y :: y in store.rooms && a in Accounts(store.rooms[y].slots) ==> x == y)
  {
    hide Runs, After, Accounts, Indexed, ValidLog;
    StartIsValid(hosting, now);
    RunKeeps(hosting, Start(now), events);
    var store := After(hosting, Start(now), events).store;
    if x in store.rooms {
      EntryIffOccupant(store, x, a);
      forall y | y in store.rooms && a in Accounts(store.rooms[x].slots) && a in Accounts(store.rooms[y].slots)
        ensures x == y
      {
        OneRoomPerAccount(store, x, y, a);
      }
    }
  }
}
