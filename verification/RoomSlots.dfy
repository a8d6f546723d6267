/** The slots of a multiplayer room and the pure mutations clients compute from a snapshot. */
module RoomSlots {
  import opened Basics
  import opened RealtimeTypes

  datatype SlotStatus = Open | Locked | NotReady | Ready | NoBeatmap | Playing | Complete

  datatype Slot = Slot(
    position: nat,
    status: SlotStatus,
    account: Option<Account>,
    team: nat,
    mods: string,
    loaded: bool,
    skipped: bool,
    failed: bool)

  type Slots = seq<Slot>

  datatype Change =
    | SetStatus(status: SlotStatus)
    | SetTeam(team: nat)
    | SetMods(mods: string)
    | MarkLoaded
    | MarkSkipped
    | MarkFailed

  datatype Mutation =
    | Join(account: Account)
    | Leave(account: Account)
    | Move(account: Account, target: nat)
    | Lock(actor: Account, position: nat)
    | Update(account: Account, change: Change)

  /** A rejected mutation raises; an unchanged one rewrites the room record without a new revision. */
  datatype Outcome = Rejected | Unchanged | Changed(slots: Slots)

  function Occupied(position: nat, status: SlotStatus, account: Account): Slot {
    Slot(position, status, Some(account), 0, "", false, false, false)
  }

  function Vacant(position: nat): Slot { Slot(position, Open, None, 0, "", false, false, false) }

  // ---------------------------------------------------------------- validity

  predicate ValidSlot(slot: Slot) {
    (slot.status != Open && slot.status != Locked <==> slot.account.Some?) && slot.team <= 2
  }

  /** Slots are in position order, coherent, and hold each account once. */
  predicate ValidSlots(slots: Slots) {
    (forall i :: 0 <= i < |slots| ==> slots[i].position == i && ValidSlot(slots[i])) &&
    (forall i, j :: 0 <= i < j < |slots| && slots[i].account.Some? ==> slots[i].account != slots[j].account)
  }

  function Accounts(slots: Slots): set<Account> {
    set i | 0 <= i < |slots| && slots[i].account.Some? :: slots[i].account.value
  }

  // ---------------------------------------------------------------- searching

  /** The first slot of the account, or the number of slots. */
  function FindAccount(slots: Slots, account: Account): (n: nat)
    ensures n <= |slots| && (n < |slots| ==> slots[n].account == Some(account))
    ensures forall i :: 0 <= i < n ==> slots[i].account != Some(account)
  {
    if slots == [] then 0
    else if slots[0].account == Some(account) then 0
    else 1 + FindAccount(slots[1..], account)
  }

  /** The first open slot, or the number of slots. */
  function FindOpen(slots: Slots): (n: nat)
    ensures n <= |slots| && (n < |slots| ==> slots[n].status == Open)
    ensures forall i :: 0 <= i < n ==> slots[i].status != Open
  {
    if slots == [] then 0
    else if slots[0].status == Open then 0
    else 1 + FindOpen(slots[1..])
  }

  /** The slot tuple with every slot at the position replaced. */
  function ReplaceAt(slots: Slots, position: nat, slot: Slot): (r: Slots)
    ensures |r| == |slots|
  {
    seq(|slots|, i requires 0 <= i < |slots| => if slots[i].position == position then slot else slots[i])
  }

  function InsertSlot(slots: Slots, slot: Slot): Slots {
    if slots == [] then [slot]
    else if slot.position < slots[0].position then [slot] + slots
    else [slots[0]] + InsertSlot(slots[1..], slot)
  }

  /** A stable sort by position. */
  function Sorted(slots: Slots): Slots {
    if slots == [] then [] else InsertSlot(Sorted(slots[..|slots| - 1]), slots[|slots| - 1])
  }

  // ---------------------------------------------------------------- mutations

  function Changing(slot: Slot, change: Change): Option<Slot> {
    match change
    case SetStatus(status) => if status == Open || status == Locked then None else Some(slot.(status := status))
    case SetTeam(team) => if team > 2 then None else Some(slot.(team := team))
    case SetMods(mods) => Some(slot.(mods := mods))
    case MarkLoaded => if slot.status == Playing then Some(slot.(loaded := true)) else None
    case MarkSkipped => if slot.status == Playing then Some(slot.(skipped := true)) else None
    case MarkFailed => if slot.status == Playing then Some(slot.(status := Complete, failed := true)) else None
  }

  function Vacated(slots: Slots, account: Account): (r: Slots)
    ensures |r| == |slots|
  {
    seq(|slots|, i requires 0 <= i < |slots| =>
      if slots[i].account == Some(account) then Vacant(slots[i].position) else slots[i])
  }

  function Moved(slots: Slots, source: Slot, target: nat): Slots {
    Sorted(ReplaceAt(ReplaceAt(slots, source.position, Vacant(source.position)), target, source.(position := target)))
  }

  function Apply(mutation: Mutation, slots: Slots): Outcome {
    match mutation
    case Join(account) =>
      var open := FindOpen(slots);
      if FindAccount(slots, account) < |slots| then Unchanged
      else if open == |slots| then Rejected
      else Changed(ReplaceAt(slots, slots[open].position, Occupied(slots[open].position, NotReady, account)))
    case Leave(account) =>
      if FindAccount(slots, account) == |slots| then Unchanged else Changed(Vacated(slots, account))
    case Move(account, target) =>
      var n := FindAccount(slots, account);
      if n == |slots| || target >= |slots| || slots[target].status != Open then Rejected
      else Changed(Moved(slots, slots[n], target))
    case Lock(_, position) =>
      if position >= |slots| || slots[position].account.Some? then Rejected
      else
        var status := if slots[position].status == Open then Locked else Open;
        Changed(ReplaceAt(slots, position, slots[position].(status := status)))
    case Update(account, change) =>
      var n := FindAccount(slots, account);
      if n == |slots| || Changing(slots[n], change).None? then Rejected
      else Changed(ReplaceAt(slots, slots[n].position, Changing(slots[n], change).value))
  }

  // ---------------------------------------------------------------- what mutations keep

  lemma {:induction false} SortedIsIdentity(slots: Slots)
    requires forall i :: 0 <= i < |slots| ==> slots[i].position == i
    ensures Sorted(slots) == slots
  {
    if slots != [] {
      var rest := slots[..|slots| - 1];
      SortedIsIdentity(rest);
      InsertLast(rest, slots[|slots| - 1]);
      assert rest + [slots[|slots| - 1]] == slots;
    }
  }

  lemma {:induction false} InsertLast(slots: Slots, slot: Slot)
    requires forall i :: 0 <= i < |slots| ==> slots[i].position < slot.position
    ensures InsertSlot(slots, slot) == slots + [slot]
  {
    if slots != [] { InsertLast(slots[1..], slot); }
  }

  /** Where positions are indexes, replacing at a position changes one slot. */
  lemma ReplaceOne(slots: Slots, position: nat, slot: Slot)
    requires forall i :: 0 <= i < |slots| ==> slots[i].position == i
    requires position < |slots| && slot.position == position
    ensures ReplaceAt(slots, position, slot) == slots[position := slot]
  {}

  lemma ReplaceKeeps(slots: Slots, position: nat, slot: Slot)
    requires ValidSlots(slots) && position < |slots| && slot.position == position && ValidSlot(slot)
    requires slot.account.Some? ==> forall i :: 0 <= i < |slots| && i != position ==> slots[i].account != slot.account
    ensures ValidSlots(slots[position := slot])
  {}

  lemma JoinKeeps(slots: Slots, account: Account)
    requires ValidSlots(slots)
    ensures var r := Apply(Join(account), slots);
      r.Changed? ==> |r.slots| == |slots| && ValidSlots(r.slots) && Accounts(r.slots) == Accounts(slots) + {account}
  {
    hide FindOpen, FindAccount, ReplaceAt;
    var n := FindOpen(slots);
    if Apply(Join(account), slots).Changed? {
      var slot := Occupied(n, NotReady, account);
      ReplaceOne(slots, n, slot);
      ReplaceKeeps(slots, n, slot);
      AccountsOfUpdate(slots, n, slot);
    }
  }

  /** Replacing a slot removes its account and adds the new one. */
  lemma AccountsOfUpdate(slots: Slots, position: nat, slot: Slot)
    requires ValidSlots(slots) && position < |slots|
    ensures Accounts(slots[position := slot]) ==
      Accounts(slots) - OccupantOf(slots[position]) + OccupantOf(slot)
  {
    var after := slots[position := slot];
    forall a ensures a in Accounts(after) <==> a in Accounts(slots) - OccupantOf(slots[position]) + OccupantOf(slot) {
      if a in Accounts(slots) && a !in OccupantOf(slots[position]) {
        var i :| 0 <= i < |slots| && slots[i].account == Some(a);
        assert after[i].account == Some(a);
      }
      if slot.account == Some(a) { assert after[position].account == Some(a); }
      if a in Accounts(after) {
        var i :| 0 <= i < |after| && after[i].account == Some(a);
        assert i == position || slots[i].account == Some(a);
      }
    }
  }

  function OccupantOf(slot: Slot): set<Account> { if slot.account.Some? then {slot.account.value} else {} }

  lemma LeaveKeeps(slots: Slots, account: Account)
    requires ValidSlots(slots)
    ensures var r := Apply(Leave(account), slots);
      r.Changed? ==> |r.slots| == |slots| && ValidSlots(r.slots) && Accounts(r.slots) == Accounts(slots) - {account}
  {
    hide FindAccount, Vacated;
    var n := FindAccount(slots, account);
    if n < |slots| {
      VacatedIsUpdate(slots, n, account);
      ReplaceKeeps(slots, n, Vacant(n));
      AccountsOfUpdate(slots, n, Vacant(n));
    }
  }

  lemma VacatedIsUpdate(slots: Slots, n: nat, account: Account)
    requires ValidSlots(slots) && n < |slots| && slots[n].account == Some(account)
    ensures Vacated(slots, account) == slots[n := Vacant(n)]
  {}

  lemma MoveKeeps(slots: Slots, account: Account, target: nat)
    requires ValidSlots(slots)
    ensures var r := Apply(Move(account, target), slots);
      r.Changed? ==> |r.slots| == |slots| && ValidSlots(r.slots) && Accounts(r.slots) == Accounts(slots)
  {
    hide FindAccount, ReplaceAt, Sorted;
    var n := FindAccount(slots, account);
    if Apply(Move(account, target), slots).Changed? {
      MovedIsSwap(slots, n, target);
      var left := slots[n := Vacant(n)];
      ReplaceKeeps(slots, n, Vacant(n));
      AccountsOfUpdate(slots, n, Vacant(n));
      ReplaceKeeps(left, target, slots[n].(position := target));
      AccountsOfUpdate(left, target, slots[n].(position := target));
      assert account in Accounts(slots);
    }
  }

  /** Moving empties one slot, fills the other, and sorting changes nothing. */
  lemma MovedIsSwap(slots: Slots, n: nat, target: nat)
    requires ValidSlots(slots) && n < |slots| && target < |slots| && n != target
    ensures Moved(slots, slots[n], target) == slots[n := Vacant(n)][target := slots[n].(position := target)]
  {
    hide ReplaceAt, Sorted;
    var left := slots[n := Vacant(n)];
    ReplaceOne(slots, n, Vacant(n));
    ReplaceOne(left, target, slots[n].(position := target));
    SortedIsIdentity(left[target := slots[n].(position := target)]);
  }

  lemma LockKeeps(slots: Slots, actor: Account, position: nat)
    requires ValidSlots(slots)
    ensures var r := Apply(Lock(actor, position), slots);
      r.Changed? ==> |r.slots| == |slots| && ValidSlots(r.slots) && Accounts(r.slots) == Accounts(slots)
  {
    hide ReplaceAt;
    if position < |slots| && slots[position].account.None? {
      var slot := slots[position].(status := if slots[position].status == Open then Locked else Open);
      ReplaceOne(slots, position, slot);
      ReplaceKeeps(slots, position, slot);
      AccountsOfUpdate(slots, position, slot);
    }
  }

  lemma UpdateKeeps(slots: Slots, account: Account, change: Change)
    requires ValidSlots(slots)
    ensures var r := Apply(Update(account, change), slots);
      r.Changed? ==> |r.slots| == |slots| && ValidSlots(r.slots) && Accounts(r.slots) == Accounts(slots)
  {
    hide FindAccount, ReplaceAt;
    var n := FindAccount(slots, account);
    if n < |slots| && Changing(slots[n], change).Some? {
      var slot := Changing(slots[n], change).value;
      ReplaceOne(slots, n, slot);
      ReplaceKeeps(slots, n, slot);
      AccountsOfUpdate(slots, n, slot);
      assert account in Accounts(slots);
    }
  }

  /** The occupants once a mutation is applied. */
  function OccupantsAfter(mutation: Mutation, occupants: set<Account>): set<Account> {
    match mutation
    case Join(account) => occupants + {account}
    case Leave(account) => occupants - {account}
    case _ => occupants
  }

  /**
   * Every mutation keeps the slot count, the order, one slot per account and coherent slots, and only join and leave
   * change who is in.
   */
  lemma ApplyKeeps(mutation: Mutation, slots: Slots)
    requires ValidSlots(slots)
    ensures var r := Apply(mutation, slots);
      (r.Changed? ==>
        |r.slots| == |slots| && ValidSlots(r.slots) &&
        Accounts(r.slots) == OccupantsAfter(mutation, Accounts(slots))) &&
      (r.Unchanged? ==> Accounts(slots) == OccupantsAfter(mutation, Accounts(slots)))
  {
    hide FindOpen, ReplaceAt, Moved, Vacated, ValidSlots, Changing;
    match mutation {
      case Join(account) =>
        JoinKeeps(slots, account);
        if FindAccount(slots, account) < |slots| { assert account in Accounts(slots); }
      case Leave(account) => LeaveKeeps(slots, account);
      case Move(account, target) => MoveKeeps(slots, account, target);
      case Lock(actor, position) => LockKeeps(slots, actor, position);
      case Update(account, change) => UpdateKeeps(slots, account, change);
    }
  }
}
