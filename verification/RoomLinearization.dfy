/** Slot updates are linearizable: each commit applies its mutation to the slots stored at that moment. */
module RoomLinearization {
  import opened Basics
  import opened RealtimeTypes
  import opened RoomSlots
  import opened RoomProjection
  import opened RoomIndex
  import opened RoomRuns

  /** The slots of every live room: all that a sequential observer needs. */
  type Shelf = map<PublicId, Slots>

  function SlotsOf(p: Projection): Shelf { map id | id in p.rooms :: p.rooms[id].slots }

  function Applied(mutation: Mutation, slots: Slots): Slots {
    var outcome := Apply(mutation, slots);
    if outcome.Changed? then outcome.slots else slots
  }

  predicate Commits(w: World, e: Event)
    requires Available(w, e)
  {
    StepOf(w, e).1.Ok? &&
    (e.Commit? ==> Mutated(LogOf(w, e.id)[e.read], e.mutation, e.room, e.deadline).Some?)
  }

  /** One atomic operation on the shelf: a mutation sees the shelf's own slots, never a client's snapshot. */
  function Atomic(shelf: Shelf, w: World, e: Event): Shelf
    requires Available(w, e)
  {
    if !Commits(w, e) then shelf
    else
      var rooms := StepOf(w, e).0.rooms;
      match e
      case Clock(_) => map id | id in shelf && id in rooms :: shelf[id]
      case Delete(id, _, _) => shelf - {id}
      case Publish(state) =>
        Put(shelf, state.room.publicId, if state.room.publicId in rooms then Some(state.slots) else None)
      case Rewrite(id, _, _, state) => Put(shelf, id, if id in rooms then Some(state.slots) else None)
      case Commit(id, _, mutation, _, _) =>
        Put(shelf, id, if id in rooms && id in shelf then Some(Applied(mutation, shelf[id])) else None)
  }

  ghost function Sequential(hosting: Hosting, w: World, events: seq<Event>, shelf: Shelf): Shelf
    requires Runs(hosting, w, events)
    decreases |events|
  {
    if events == [] then shelf
    else Sequential(hosting, Step(w, events[0]), events[1..], Atomic(shelf, w, events[0]))
  }

  /** A mutation computes its new slots from the snapshot's slots alone. */
  lemma MutatedSlots(state: RoomState, mutation: Mutation, room: Room, deadline: Time)
    requires Mutated(state, mutation, room, deadline).Some?
    ensures !Apply(mutation, state.slots).Rejected?
    ensures Mutated(state, mutation, room, deadline).value.slots == Applied(mutation, state.slots)
  {
    hide Apply, ValidState;
  }

  lemma WrittenSlots(p: Projection, index: map<Account, Entry>, previous: seq<Account>, owner: Owner, state: RoomState)
    requires Written(p, index, previous, owner, state).1.Ok?
    ensures var rooms := Written(p, index, previous, owner, state).0.rooms; var id := state.room.publicId;
      SlotsOf(Written(p, index, previous, owner, state).0) ==
      Put(SlotsOf(p), id, if id in rooms then Some(state.slots) else None)
  {
    hide Occupants, Conflicts, Released, Reserved;
  }

  /** The committed mutation is accepted by, and applied to, the slots stored at commit time. */
  lemma CommitIsAtomic(hosting: Hosting, w: World, e: Event)
    requires e.Commit? && Available(w, e) && Inv(hosting, w) && Allowed(hosting, w, e) && Commits(w, e)
    ensures e.id in w.store.rooms && !Apply(e.mutation, w.store.rooms[e.id].slots).Rejected?
    ensures SlotsOf(StepOf(w, e).0) == Atomic(SlotsOf(w.store), w, e)
  {
    hide Inv, Apply, ValidState, Mutated, Written, Occupants, Outdated, Allowed;
    var snapshot := LogOf(w, e.id)[e.read];
    var next := Mutated(snapshot, e.mutation, e.room, e.deadline).value;
    MutationContinues(hosting, w, e);
    MutatedSlots(snapshot, e.mutation, e.room, e.deadline);
    CommitSeesCurrent(hosting, w, e.id, e.read, e.read, Occupants(snapshot.slots), next);
    WrittenSlots(w.store, w.store.index, Occupants(snapshot.slots), OwnerOf(w.store.rooms[e.id]), next);
  }

  lemma OthersAreAtomic(hosting: Hosting, w: World, e: Event)
    requires !e.Commit? && Available(w, e) && Inv(hosting, w) && Allowed(hosting, w, e)
    ensures SlotsOf(StepOf(w, e).0) == Atomic(SlotsOf(w.store), w, e)
  {
    hide Inv, ValidState, Written, Occupants, Released, Spoils, Unpublished, Continues, Outdated;
    match e {
      case Clock(_) =>
      case Delete(_, _, _) =>
      case Publish(state) =>
        var id := state.room.publicId;
        WrittenKeepsRooms(w.store, w.store.index, [], OwnerOf(state), state);
        if Commits(w, e) {
          if id in w.store.rooms {
            var current := w.store.rooms[id];
            WrittenSlots(w.store, Released(w.store.index, Occupants(current.slots), OwnerOf(current)), [],
              OwnerOf(current), state);
          } else {
            WrittenSlots(w.store, w.store.index, [], OwnerOf(state), state);
          }
        } else if id in w.store.rooms {
          var current := w.store.rooms[id];
          WrittenKeepsRooms(w.store, Released(w.store.index, Occupants(current.slots), OwnerOf(current)), [],
            OwnerOf(current), state);
        }
      case Rewrite(id, read, reread, state) =>
        var previous := Occupants(LogOf(w, id)[reread].slots);
        if id in w.store.rooms {
          WrittenKeepsRooms(w.store, w.store.index, previous, OwnerOf(w.store.rooms[id]), state);
          if Commits(w, e) { WrittenSlots(w.store, w.store.index, previous, OwnerOf(w.store.rooms[id]), state); }
        }
    }
  }

  lemma WrittenKeepsRooms(p: Projection, index: map<Account, Entry>, previous: seq<Account>, owner: Owner,
                          state: RoomState)
    ensures !Written(p, index, previous, owner, state).1.Ok? ==>
      Written(p, index, previous, owner, state).0.rooms == p.rooms
  {
    hide Occupants, Conflicts, Released, Reserved;
  }

  lemma StepIsAtomic(hosting: Hosting, w: World, e: Event)
    requires Available(w, e) && Inv(hosting, w) && Allowed(hosting, w, e)
    ensures SlotsOf(Step(w, e).store) == Atomic(SlotsOf(w.store), w, e)
  {
    hide Inv, Atomic, Mutated, Create, Remove, Allowed;
    if e.Commit? {
      if Commits(w, e) {
        CommitIsAtomic(hosting, w, e);
      } else {
        RefusedReplace(w, e);
        assert Atomic(SlotsOf(w.store), w, e) == SlotsOf(w.store) by { RefusedIsNothing(SlotsOf(w.store), w, e); }
      }
    } else {
      OthersAreAtomic(hosting, w, e);
    }
  }

  lemma RefusedIsNothing(shelf: Shelf, w: World, e: Event)
    requires Available(w, e) && !Commits(w, e)
    ensures Atomic(shelf, w, e) == shelf
  {}

  lemma RefusedReplace(w: World, e: Event)
    requires e.Commit? && Available(w, e) && !Commits(w, e)
    ensures Step(w, e).store.rooms == w.store.rooms
  {
    hide Mutated, Occupants, Conflicts, Released, Reserved;
  }

  /** Any interleaving equals the sequential run of its committed operations. */
  lemma {:induction false} RunIsSequential(hosting: Hosting, w: World, events: seq<Event>)
    requires Inv(hosting, w) && Runs(hosting, w, events)
    ensures SlotsOf(After(hosting, w, events).store) == Sequential(hosting, w, events, SlotsOf(w.store))
    decreases |events|
  {
    hide Inv, Step, Allowed, Available, Atomic;
    if events != [] {
      StepKeeps(hosting, w, events[0]);
      StepIsAtomic(hosting, w, events[0]);
      RunIsSequential(hosting, Step(w, events[0]), events[1..]);
    }
  }

  /** From an empty store, the slots of every live room are those of the sequential run, and are always valid. */
  lemma SlotsAreLinearizable(hosting: Hosting, now: Time, events: seq<Event>)
    requires Runs(hosting, Start(now), events)
    ensures var store := After(hosting, Start(now), events).store;
      SlotsOf(store) == Sequential(hosting, Start(now), events, map[]) &&
      forall id :: id in store.rooms ==>
        ValidSlots(store.rooms[id].slots) && |store.rooms[id].slots| == store.rooms[id].room.capacity
    ensures var store := After(hosting, Start(now), events).store;
      forall id, i :: id in store.rooms && 0 <= i < |store.rooms[id].slots| ==>
        var slot := store.rooms[id].slots[i];
        slot.position == i && slot.team in {0, 1, 2} && (slot.account.None? <==> slot.status in {Open, Locked})
  {
    hide Runs, After, Sequential, Accounts, ValidLog;
    StartIsValid(hosting, now);
    assert SlotsOf(Start(now).store) == map[];
    RunKeeps(hosting, Start(now), events);
    RunIsSequential(hosting, Start(now), events);
    var store := After(hosting, Start(now), events).store;
    forall id | id in store.rooms
      ensures ValidSlots(store.rooms[id].slots) && |store.rooms[id].slots| == store.rooms[id].room.capacity
    {
      assert RoomIndexed(store, id);
    }
  }
}
