/** The bounded frame history of a host: publishing, eviction, expiry and windows. */
module FrameRing {
  import opened Basics
  import opened RealtimeTypes

  datatype Frame = Frame(cursor: nat, expiresAt: Time, sequence: nat, payload: string)

  /** The frames in cursor order, with the stored byte counter; both keys share their deadline. */
  datatype Ring = Ring(frames: seq<Frame>, bytes: nat, deadline: Time)

  /** The cursor counter and last sequence number of the owning epoch. */
  datatype Stream = Stream(cursor: nat, sequence: nat, epoch: Epoch, deadline: Time)

  datatype Histories = Histories(rings: map<Account, Ring>, streams: map<Account, Stream>)

  datatype Window = Window(oldest: Option<nat>, latest: Option<nat>, truncated: bool, frames: seq<Frame>)

  function NoHistories(): Histories { Histories(map[], map[]) }

  function FramesOf(h: Histories, account: Account): seq<Frame> {
    if account in h.rings then h.rings[account].frames else []
  }

  // ---------------------------------------------------------------- sequences of frames

  function Bytes(frames: seq<Frame>): nat {
    if frames == [] then 0 else |frames[0].payload| + Bytes(frames[1..])
  }

  function LatestExpiry(frames: seq<Frame>): Time {
    if frames == [] then 0 else Max(frames[0].expiresAt, LatestExpiry(frames[1..]))
  }

  /** The frames that have not expired. */
  function Survivors(frames: seq<Frame>, at: Time): seq<Frame> {
    if frames == [] then []
    else (if frames[0].expiresAt <= at then [] else [frames[0]]) + Survivors(frames[1..], at)
  }

  lemma {:induction false} BytesAppend(frames: seq<Frame>, frame: Frame)
    ensures Bytes(frames + [frame]) == Bytes(frames) + |frame.payload|
    ensures LatestExpiry(frames + [frame]) == Max(LatestExpiry(frames), frame.expiresAt)
  {
    if frames == [] {
      assert frames + [frame] == [frame];
      assert [frame][1..] == [];
    } else {
      BytesAppend(frames[1..], frame);
      assert (frames + [frame])[1..] == frames[1..] + [frame];
    }
  }

  lemma {:induction false} SurvivorsAppend(frames: seq<Frame>, frame: Frame, at: Time)
    ensures Survivors(frames + [frame], at) ==
      if frame.expiresAt <= at then Survivors(frames, at) else Survivors(frames, at) + [frame]
  {
    if frames == [] {
      assert frames + [frame] == [frame];
      assert [frame][1..] == [];
    } else {
      SurvivorsAppend(frames[1..], frame, at);
      assert (frames + [frame])[1..] == frames[1..] + [frame];
    }
  }

  /** One pass that prunes the expired frames and measures the rest; None when the ring is over its limit. */
  method Stats(frames: seq<Frame>, at: Time, maximum: nat)
    returns (kept: Option<seq<Frame>>, bytes: nat, deadline: Time)
    ensures kept == if |frames| > maximum then None else Some(Survivors(frames, at))
    ensures kept.Some? ==> bytes == Bytes(kept.value) && deadline == LatestExpiry(kept.value)
  {
    bytes, deadline := 0, 0;
    if |frames| > maximum { return None, 0, 0; }
    var survivors: seq<Frame> := [];
    for index := 0 to |frames|
      invariant survivors == Survivors(frames[..index], at)
      invariant bytes == Bytes(survivors) && deadline == LatestExpiry(survivors)
    {
      var frame := frames[index];
      assert frames[..index + 1] == frames[..index] + [frame];
      SurvivorsAppend(frames[..index], frame, at);
      if frame.expiresAt > at {
        BytesAppend(survivors, frame);
        survivors := survivors + [frame];
        bytes := bytes + |frame.payload|;
        if frame.expiresAt > deadline { deadline := frame.expiresAt; }
      }
    }
    assert frames[..|frames|] == frames;
    kept := Some(survivors);
  }

  predicate Fits(cfg: Config, frames: seq<Frame>, size: nat) {
    |frames| < cfg.maxFrames && Bytes(frames) + size <= cfg.maxBytes
  }

  /** The longest suffix that leaves room for a payload of the given size. */
  function Evicted(cfg: Config, frames: seq<Frame>, size: nat): seq<Frame> {
    if frames == [] || Fits(cfg, frames, size) then frames else Evicted(cfg, frames[1..], size)
  }

  method Evict(cfg: Config, frames: seq<Frame>, bytes: nat, size: nat) returns (kept: seq<Frame>, left: nat)
    requires bytes == Bytes(frames)
    ensures kept == Evicted(cfg, frames, size) && left == Bytes(kept)
  {
    kept, left := frames, bytes;
    while |kept| >= cfg.maxFrames || left + size > cfg.maxBytes
      invariant left == Bytes(kept) && Evicted(cfg, kept, size) == Evicted(cfg, frames, size)
      decreases |kept|
    {
      if kept == [] { break; }
      left := Max(0, left - |kept[0].payload|);
      kept := kept[1..];
    }
  }

  lemma {:induction false} EvictedIsLongestSuffix(cfg: Config, frames: seq<Frame>, size: nat) returns (k: nat)
    requires cfg.Valid() && size <= cfg.maxBytes
    ensures k <= |frames| && Evicted(cfg, frames, size) == frames[k..] && Fits(cfg, frames[k..], size)
    ensures forall j :: 0 <= j < k ==> !Fits(cfg, frames[j..], size)
  {
    if frames == [] || Fits(cfg, frames, size) {
      assert frames[0..] == frames;
      return 0;
    }
    var m := EvictedIsLongestSuffix(cfg, frames[1..], size);
    k := m + 1;
    assert frames[1..][m..] == frames[k..];
    forall j | 0 <= j < k ensures !Fits(cfg, frames[j..], size) {
      if j == 0 { assert frames[0..] == frames; } else { assert frames[1..][j - 1..] == frames[j..]; }
    }
  }

  /** A sorted set keeps its members in cursor order. */
  function Insert(frames: seq<Frame>, frame: Frame): seq<Frame> {
    if frames == [] then [frame]
    else if frame.cursor < frames[0].cursor then [frame] + frames
    else [frames[0]] + Insert(frames[1..], frame)
  }

  lemma {:induction false} InsertGreatest(frames: seq<Frame>, frame: Frame)
    requires forall i :: 0 <= i < |frames| ==> frames[i].cursor < frame.cursor
    ensures Insert(frames, frame) == frames + [frame]
  {
    if frames != [] { InsertGreatest(frames[1..], frame); }
  }

  // ---------------------------------------------------------------- transitions

  function ExpireHistories(h: Histories, now: Time): Histories {
    Histories(
      map a | a in h.rings && h.rings[a].deadline > now :: h.rings[a],
      map a | a in h.streams && h.streams[a].deadline > now :: h.streams[a])
  }

  function ClearedHistory(h: Histories, account: Account): Histories {
    Histories(h.rings - {account}, h.streams - {account})
  }

  /** The keys after a pass over the frames: deleted when none is left. */
  function Settled(frames: seq<Frame>): Option<Ring> {
    if frames == [] then None else Some(Ring(frames, Bytes(frames), LatestExpiry(frames)))
  }

  function Pruned(h: Histories, account: Account, at: Time): Histories {
    h.(rings := Put(h.rings, account, Settled(Survivors(FramesOf(h, account), at))))
  }

  /** Attaching prunes like reading does, but deletes a ring that is over its limit. */
  function AttachPruned(cfg: Config, h: Histories, account: Account, now: Time): Histories {
    if |FramesOf(h, account)| > cfg.maxFrames then h.(rings := h.rings - {account}) else Pruned(h, account, now)
  }

  method AttachPrune(cfg: Config, h: Histories, account: Account, now: Time) returns (after: Histories)
    ensures after == AttachPruned(cfg, h, account, now)
  {
    var kept, bytes, deadline := Stats(FramesOf(h, account), now, cfg.maxFrames);
    if kept.None? {
      after := h.(rings := h.rings - {account});
    } else if kept.value == [] {
      after := h.(rings := h.rings - {account});
    } else {
      after := h.(rings := h.rings[account := Ring(kept.value, bytes, deadline)]);
    }
  }

  method Prune(h: Histories, account: Account, at: Time, maximum: nat) returns (after: Option<Histories>)
    ensures after == if |FramesOf(h, account)| > maximum then None else Some(Pruned(h, account, at))
  {
    var kept, bytes, deadline := Stats(FramesOf(h, account), at, maximum);
    if kept.None? { return None; }
    if kept.value == [] {
      after := Some(h.(rings := h.rings - {account}));
    } else {
      after := Some(h.(rings := h.rings[account := Ring(kept.value, bytes, deadline)]));
    }
  }

  function Oldest(frames: seq<Frame>): Option<nat> { if frames == [] then None else Some(frames[0].cursor) }

  function Newest(frames: seq<Frame>): Option<nat> { if frames == [] then None else Some(frames[|frames| - 1].cursor) }

  function LatestWindow(frames: seq<Frame>, limit: nat): Window {
    Window(Oldest(frames), Newest(frames), |frames| > limit, frames[if |frames| > limit then |frames| - limit else 0..])
  }

  /** The first frames after a cursor; truncated when the frame right after it is no longer stored. */
  function WindowAfter(frames: seq<Frame>, after: nat, limit: nat): Window {
    Window(Oldest(frames), Newest(frames), frames != [] && after + 1 < frames[0].cursor,
      FirstAfter(frames, after, limit))
  }

  function FirstAfter(frames: seq<Frame>, after: nat, limit: nat): seq<Frame> {
    if frames == [] || limit == 0 then []
    else if frames[0].cursor > after then [frames[0]] + FirstAfter(frames[1..], after, limit - 1)
    else FirstAfter(frames[1..], after, limit)
  }

  lemma {:induction false} FirstAfterAppend(frames: seq<Frame>, frame: Frame, after: nat, limit: nat)
    ensures FirstAfter(frames + [frame], after, limit) ==
      var first := FirstAfter(frames, after, limit);
      if frame.cursor > after && |first| < limit then first + [frame] else first
    ensures |FirstAfter(frames, after, limit)| <= limit
  {
    if frames == [] {
      assert frames + [frame] == [frame];
      assert [frame][1..] == [];
    } else {
      assert (frames + [frame])[1..] == frames[1..] + [frame];
      if limit > 0 && frames[0].cursor > after {
        FirstAfterAppend(frames[1..], frame, after, limit - 1);
      } else {
        FirstAfterAppend(frames[1..], frame, after, limit);
      }
    }
  }

  method ReadAfter(frames: seq<Frame>, after: nat, limit: nat) returns (window: Window)
    ensures window == WindowAfter(frames, after, limit)
  {
    var found: seq<Frame> := [];
    for index := 0 to |frames|
      invariant found == FirstAfter(frames[..index], after, limit)
    {
      assert frames[..index + 1] == frames[..index] + [frames[index]];
      FirstAfterAppend(frames[..index], frames[index], after, limit);
      if frames[index].cursor > after && |found| < limit { found := found + [frames[index]]; }
    }
    assert frames[..|frames|] == frames;
    window := Window(Oldest(frames), Newest(frames), frames != [] && after + 1 < frames[0].cursor, found);
  }

  /** Sequence numbers live on a circle of 65536; a frame must lie at most half of it ahead. */
  predicate NonMonotonic(previous: nat, sequence: nat) {
    var delta := (sequence - previous + 65536) % 65536;
    delta == 0 || delta > 32768
  }

  predicate Restarts(h: Histories, account: Account, epoch: Epoch, reset: bool) {
    reset || (account in h.streams && h.streams[account].epoch != epoch)
  }

  function StreamFor(h: Histories, account: Account, epoch: Epoch, reset: bool): Option<Stream> {
    if Restarts(h, account, epoch, reset) || account !in h.streams then None else Some(h.streams[account])
  }

  /** The unexpired frames a publication starts from. */
  function Carried(cfg: Config, h: Histories, account: Account, epoch: Epoch, reset: bool, now: Time): seq<Frame> {
    var frames := if Restarts(h, account, epoch, reset) then [] else FramesOf(h, account);
    if |frames| > cfg.maxFrames then [] else Survivors(frames, now)
  }

  function NextCursor(stream: Option<Stream>): nat { if stream.None? then 1 else stream.value.cursor + 1 }

  function Published(cfg: Config, h: Histories, account: Account, epoch: Epoch, now: Time, frame: Frame,
                     reset: bool): Histories {
    var carried := Carried(cfg, h, account, epoch, reset, now);
    var kept := Evicted(cfg, carried, |frame.payload|);
    var deadline := Max(LatestExpiry(carried), frame.expiresAt);
    Histories(
      h.rings[account := Ring(Insert(kept, frame), Bytes(kept) + |frame.payload|, deadline)],
      h.streams[account := Stream(frame.cursor, frame.sequence, epoch, deadline)])
  }

  method Publish(cfg: Config, h: Histories, account: Account, epoch: Epoch, now: Time, frame: Frame, reset: bool)
    returns (after: Histories)
    ensures after == Published(cfg, h, account, epoch, now, frame, reset)
  {
    var frames := if Restarts(h, account, epoch, reset) then [] else FramesOf(h, account);
    var carried, bytes, deadline := Stats(frames, now, cfg.maxFrames);
    if carried.None? { carried, bytes, deadline := Some([]), 0, 0; }
    var kept, left := Evict(cfg, carried.value, bytes, |frame.payload|);
    deadline := Max(deadline, frame.expiresAt);
    after := Histories(
      h.rings[account := Ring(Insert(kept, frame), left + |frame.payload|, deadline)],
      h.streams[account := Stream(frame.cursor, frame.sequence, epoch, deadline)]);
  }

  /** An accepted sequence number is one to 32768 steps ahead on the circle. */
  lemma AcceptedMovesForward(previous: nat, sequence: nat)
    requires previous < 65536 && sequence < 65536
    ensures !NonMonotonic(previous, sequence) <==>
      exists step :: 1 <= step <= 32768 && sequence == Ahead(previous, step)
  {
    if !NonMonotonic(previous, sequence) {
      var step := (sequence - previous + 65536) % 65536;
      assert sequence == Ahead(previous, step);
    }
  }

  function Ahead(previous: nat, step: nat): nat { (previous + step) % 65536 }

  /** The latest window is the end of the stored frames, truncated exactly when it leaves some out. */
  lemma LatestWindowIsSuffix(frames: seq<Frame>, limit: nat)
    ensures var window := LatestWindow(frames, limit);
      |window.frames| <= limit && window.frames == frames[|frames| - |window.frames|..] &&
      (window.truncated <==> |window.frames| < |frames|) && (!window.truncated ==> window.frames == frames)
  {}
}
