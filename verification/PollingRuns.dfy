/**
 * A reader polls a host's frames by cursor while the host publishes, starts new histories and lets them expire.
 *
 * Whatever happens, the reader gets published frames at most once and in order. It gets all of them exactly when every
 * poll that returned frames came before a new history began and returned consecutive cursors; a new history is not
 * reported to the reader, so its first frames are skipped in silence.
 */
module PollingRuns {
  import opened Basics
  import opened RealtimeTypes
  import Registry = SessionRegistry
  import Rosters = ChannelRosters
  import Membership = ChannelMembership
  import Relations = SpectatorRelations
  import Agreement = SpectatorAgreement
  import Board = PresenceBoard
  import History = FrameHistory
  import opened FrameRing
  import opened FramePolling
  import opened RealtimeScripts
  import opened RealtimeRuns

  /**
   * Everything the host published and where its current history begins in it; the reader's cursor, where the history
   * of that cursor began, the frames it collected, and the place of each among everything published.
   */
  datatype Reader = Reader(
    published: seq<Frame>,
    start: nat,
    seen: nat,
    origin: nat,
    collected: seq<Frame>,
    places: seq<int>)

  function Fresh(): Reader { Reader([], 0, 0, 0, [], []) }

  /** The frames of the current history. */
  function Log(p: Reader): seq<Frame> { if p.start <= |p.published| then p.published[p.start..] else [] }

  /** A new history began after the reader obtained its cursor. */
  predicate Restarted(p: Reader) { p.origin < p.start }

  predicate StartsHistory(s: State, call: Call) {
    call.Publish? && StreamFor(s.histories, call.account, call.epoch, call.reset).None?
  }

  predicate Polls(call: Call, host: Account, p: Reader) {
    call.Read? && call.account == host && call.after == Some(p.seen)
  }

  /** What a call returns to the reader. */
  function Received(cfg: Config, s: State, call: Call, host: Account, p: Reader): seq<Frame> {
    if Polls(call, host, p) && Step(cfg, s, call).1.Frames? then Step(cfg, s, call).1.window.frames else []
  }

  function Appended(p: Reader, frame: Frame, starts: bool): Reader {
    p.(published := p.published + [frame], start := if starts then |p.published| else p.start)
  }

  function PlacesOf(start: nat, frames: seq<Frame>): seq<int> {
    seq(|frames|, i requires 0 <= i < |frames| => start + frames[i].cursor - 1)
  }

  /** The reader keeps the frames and goes on from the last cursor; it learns nothing else. */
  function Took(p: Reader, frames: seq<Frame>): Reader {
    if frames == [] then p
    else p.(seen := frames[|frames| - 1].cursor, origin := p.start, collected := p.collected + frames,
            places := p.places + PlacesOf(p.start, frames))
  }

  function Observe(cfg: Config, s: State, call: Call, host: Account, p: Reader): Reader {
    var reply := Step(cfg, s, call).1;
    if call.Publish? && call.account == host && reply.Published? then
      Appended(p, Frame(reply.cursor, call.expiresAt, call.sequence, call.payload), StartsHistory(s, call))
    else Took(p, Received(cfg, s, call, host, p))
  }

  function Observed(cfg: Config, s: State, calls: seq<Call>, host: Account, p: Reader): Reader
    decreases |calls|
  {
    if calls == [] then p
    else Observed(cfg, Step(cfg, s, calls[0]).0, calls[1..], host, Observe(cfg, s, calls[0], host, p))
  }

  // ---------------------------------------------------------------- the reader

  /** The collected frames are published ones, in order, and the cursor stands right after the last of them. */
  ghost predicate Placed(p: Reader) {
    p.origin <= p.start <= |p.published| && p.origin + p.seen <= |p.published| &&
    (Restarted(p) ==> p.origin + p.seen <= p.start) &&
    Matching(p) && Ascending(p.places) &&
    if p.places == [] then p.origin + p.seen == 0 else p.places[|p.places| - 1] + 1 == p.origin + p.seen
  }

  ghost predicate Matching(p: Reader) {
    |p.places| == |p.collected| &&
    forall i :: 0 <= i < |p.places| ==>
      0 <= p.places[i] < |p.published| && p.published[p.places[i]] == p.collected[i]
  }

  ghost predicate Ascending(places: seq<int>) {
    forall i, j :: 0 <= i < j < |places| ==> places[i] < places[j]
  }

  /** The reader has the first frames ever published, none left out. */
  ghost predicate Complete(p: Reader) {
    forall i :: 0 <= i < |p.places| ==> p.places[i] == i
  }

  lemma AppendedPlaces(p: Reader, frame: Frame, starts: bool)
    requires Placed(p)
    ensures Placed(Appended(p, frame, starts))
    ensures Log(Appended(p, frame, starts)) == (if starts then [] else Log(p)) + [frame]
  {}

  lemma TookMatches(p: Reader, frames: seq<Frame>)
    requires p.start <= |p.published| && Matching(p) && Drawn(frames, Log(p))
    ensures Matching(Took(p, frames))
  {
    hide History.Increasing;
    var q := Took(p, frames);
    forall i | 0 <= i < |q.places|
      ensures 0 <= q.places[i] < |q.published| && q.published[q.places[i]] == q.collected[i]
    {
      if i >= |p.places| { assert frames[i - |p.places|] in frames; }
    }
  }

  lemma TookAscends(p: Reader, frames: seq<Frame>)
    requires Placed(p) && History.Increasing(frames) && forall f :: f in frames ==> f.cursor > p.seen
    ensures Ascending(Took(p, frames).places)
  {
    hide Matching;
    var q := Took(p, frames);
    forall i, j | 0 <= i < j < |q.places| ensures q.places[i] < q.places[j] {
      if j >= |p.places| {
        assert frames[j - |p.places|] in frames;
        if i < |p.places| { assert p.places[i] <= p.places[|p.places| - 1]; }
      }
    }
  }

  lemma TookPlaces(p: Reader, frames: seq<Frame>)
    requires Placed(p) && Drawn(frames, Log(p)) && forall f :: f in frames ==> f.cursor > p.seen
    ensures Placed(Took(p, frames))
  {
    hide Matching, Ascending;
    TookMatches(p, frames);
    TookAscends(p, frames);
    if frames != [] { assert frames[|frames| - 1] in frames; }
  }

  /** Frames keep a complete reader complete exactly when no history began meanwhile and no cursor is skipped. */
  lemma TookCompletes(p: Reader, frames: seq<Frame>)
    requires Placed(p) && Complete(p) && forall f :: f in frames ==> f.cursor > p.seen
    ensures Complete(Took(p, frames)) <==> frames == [] || (!Restarted(p) && Consecutive(frames, p.seen))
  {
    hide Matching, Ascending;
    var q, n := Took(p, frames), |p.places|;
    assert n == p.origin + p.seen;
    if frames != [] {
      assert frames[0] in frames;
      forall i | 0 <= i < |frames| ensures q.places[n + i] == p.start + frames[i].cursor - 1 {}
      if Complete(q) {
        assert q.places[n + 0] == n + 0;
        forall i | 0 <= i < |frames| ensures frames[i].cursor == p.seen + 1 + i { assert q.places[n + i] == n + i; }
      }
    }
  }

  // ---------------------------------------------------------------- what the store keeps of a history

  ghost predicate SameHistory(before: Histories, after: Histories, a: Account) {
    a in after.streams ==>
      a in before.streams && before.streams[a] == after.streams[a] && FramesOf(before, a) == FramesOf(after, a)
  }

  lemma SameTracks(before: Histories, after: Histories, a: Account, log: seq<Frame>)
    requires SameHistory(before, after, a)
    ensures Tracks(before, a, log) ==> Tracks(after, a, log)
    ensures Recorded(before, a, log) ==> Recorded(after, a, log)
  {
    hide Numbered, Suffix, Drawn;
  }

  /** Calls that neither publish, read nor attach leave a history as it is or delete it. */
  lemma QuietStep(cfg: Config, s: State, call: Call, host: Account)
    requires !call.Publish? && !call.Read? && !call.Attach? && !call.Clock?
    ensures SameHistory(s.histories, Step(cfg, s, call).0.histories, host)
  {
    hide Registry.StatusOf, Registry.OpeningOf, Board.Full, Board.SetPresence, Board.RefusedPresence;
    hide Board.ClearedPresence, Board.SetPreference, Board.PresentAs;
    hide Rosters.Join, Rosters.Leave, Rosters.Listed, Rosters.ActiveMembers, Rosters.AtLimit, Rosters.Renewed;
    hide Rosters.Reopened, Rosters.Fence;
    hide Relations.Detach, Relations.Swept, Relations.ListedRelations, Relations.Visible, Relations.Severed;
    hide Relations.RenewedOwn, Relations.RenewedViewers;
    hide Board.ClearedBoard, Board.RenewedPresence, Board.RenewedPreference, Registry.Extended;
  }

  lemma ClockTracks(cfg: Config, s: State, time: Time, host: Account, log: seq<Frame>)
    requires Inv(cfg, s)
    ensures Tracks(s.histories, host, log) ==> Tracks(Advance(s, time).histories, host, log)
    ensures Recorded(s.histories, host, log) ==> Recorded(Advance(s, time).histories, host, log)
  {
    hide Tracks, Recorded, Registry.Valid, Board.ValidBoard, Membership.ValidChannels, Agreement.ValidSpectators;
    hide History.ValidHistories, ExpireHistories;
    hide Board.ExpireBoard, Rosters.ExpireChannels, Relations.ExpireSpectators;
    if time > s.now {
      if Tracks(s.histories, host, log) {
        ExpiredTracks(cfg, s.histories, s.registry.epochs, s.now, time, host, log);
      }
      if Recorded(s.histories, host, log) { ExpiredRecords(s.histories, time, host, log); }
    }
  }

  lemma AttachTracks(cfg: Config, s: State, request: Relations.Relation, limit: nat, host: Account, log: seq<Frame>)
    requires Inv(cfg, s)
    ensures var after := AttachSpectator(cfg, s, request, limit).0.histories;
      (Tracks(s.histories, host, log) && Steady(log) ==> Tracks(after, host, log)) &&
      (Recorded(s.histories, host, log) ==> Recorded(after, host, log))
  {
    hide Tracks, Recorded, Steady, Registry.Valid, Board.ValidBoard, Membership.ValidChannels;
    hide Agreement.ValidSpectators, History.ValidHistories;
    hide Relations.Attach, Relations.ViewerLimit, Registry.StatusOf, LatestWindow, PresenceUntil;
    History.PrunedKeeps(cfg, s.histories, s.registry.epochs, s.now, request.host, s.now);
    PrunedEither(s.histories, request.host, s.now, host, log);
  }

  lemma PrunedEither(h: Histories, account: Account, at: Time, host: Account, log: seq<Frame>)
    ensures Tracks(h, host, log) && Steady(log) ==> Tracks(Pruned(h, account, at), host, log)
    ensures Recorded(h, host, log) ==> Recorded(Pruned(h, account, at), host, log)
  {
    hide Steady, Numbered, Suffix, Survivors, Settled, Drawn;
    if account == host {
      if Tracks(h, host, log) && Steady(log) { PrunedTracks(h, host, at, log); }
      if Recorded(h, host, log) { PrunedRecords(h, host, at, log); }
    }
  }

  lemma ReadTracks(cfg: Config, s: State, call: Call, host: Account, log: seq<Frame>)
    requires call.Read?
    ensures var after := Step(cfg, s, call).0.histories;
      (Tracks(s.histories, host, log) && Steady(log) ==> Tracks(after, host, log)) &&
      (Recorded(s.histories, host, log) ==> Recorded(after, host, log))
  {
    hide Steady, Tracks, Recorded, Pruned, FramesOf, Registry.StatusOf, LatestWindow, WindowAfter;
    PrunedEither(s.histories, call.account, Max(s.now, call.at), host, log);
  }

  /** The log that a publication makes of the current one. */
  lemma PublishTracks(cfg: Config, s: State, call: Call, host: Account, p: Reader)
    requires Inv(cfg, s) && cfg.Valid() && call.Publish? && Placed(p)
    ensures var after := Step(cfg, s, call).0.histories; var q := Observe(cfg, s, call, host, p);
      (Tracks(s.histories, host, Log(p)) && Steady(Log(p)) ==> Tracks(after, host, Log(q))) &&
      (Recorded(s.histories, host, Log(p)) ==> Recorded(after, host, Log(q)))
  {
    hide Steady, Numbered, Suffix, Survivors, Drawn, Placed, Log;
    hide Registry.StatusOf, Registry.Valid, Board.ValidBoard, Membership.ValidChannels, Agreement.ValidSpectators;
    hide Relations.Swept, Relations.ListedRelations, Relations.Reachable, Relations.Named, History.ValidHistories;
    hide FrameRing.NonMonotonic, PresenceUntil, Insert, Evicted, Bytes, LatestExpiry;
    if call.account == host && Step(cfg, s, call).1.Published? {
      var h, epochs := s.histories, s.registry.epochs;
      var frame := Frame(NextCursor(StreamFor(h, host, call.epoch, call.reset)), call.expiresAt, call.sequence,
        call.payload);
      AppendedPlaces(p, frame, StartsHistory(s, call));
      assert [] + [frame] == [frame];
      if Tracks(h, host, Log(p)) && Steady(Log(p)) {
        PublishedTracks(cfg, h, epochs, host, call.epoch, s.now, frame, call.reset, Log(p));
      }
      if Recorded(h, host, Log(p)) {
        PublishedRecords(cfg, h, epochs, host, call.epoch, s.now, frame, call.reset, Log(p));
      }
    }
  }

  /** Stored frames stay frames of the current history, and its end without gaps when its expiries never go back. */
  lemma StepTracks(cfg: Config, s: State, call: Call, host: Account, p: Reader)
    requires Inv(cfg, s) && cfg.Valid() && Placed(p)
    ensures var after := Step(cfg, s, call).0.histories; var q := Observe(cfg, s, call, host, p);
      (Tracks(s.histories, host, Log(p)) && Steady(Log(p)) ==> Tracks(after, host, Log(q))) &&
      (Recorded(s.histories, host, Log(p)) ==> Recorded(after, host, Log(q)))
  {
    hide Inv, Steady, Tracks, Recorded, Placed, Advance, AttachSpectator, PublishFrame, ReadFrames;
    match call {
      case Publish(_, _, _, _, _, _) => PublishTracks(cfg, s, call, host, p);
      case Read(_, _, _, _, _) => ReadTracks(cfg, s, call, host, Log(p));
      case Attach(request, limit) => AttachTracks(cfg, s, request, limit, host, Log(p));
      case Clock(time) => ClockTracks(cfg, s, time, host, Log(p));
      case _ =>
        hide Step;
        QuietStep(cfg, s, call, host);
        SameTracks(s.histories, Step(cfg, s, call).0.histories, host, Log(p));
    }
  }

  // ---------------------------------------------------------------- one poll

  /** What a poll answers is a window over the frames that survive the asked time. */
  lemma PollIsWindow(cfg: Config, s: State, call: Call, host: Account, p: Reader)
    requires Inv(cfg, s) && Polls(call, host, p) && Step(cfg, s, call).1.Frames?
    ensures var after := Pruned(s.histories, host, Max(s.now, call.at));
      Step(cfg, s, call).1.window == WindowAfter(FramesOf(after, host), p.seen, call.limit) &&
      (FramesOf(after, host) != [] ==> host in after.streams)
  {
    hide Registry.StatusOf, Registry.Valid, Board.ValidBoard, Membership.ValidChannels, Agreement.ValidSpectators;
    hide FirstAfter, Survivors, Pruned, Oldest, Newest, FramesOf, History.ValidHistories;
    var time := Max(s.now, call.at);
    History.PrunedKeeps(cfg, s.histories, s.registry.epochs, s.now, host, time);
    NoStreamNoFrames(cfg, Pruned(s.histories, host, time), s.registry.epochs, s.now, host);
  }

  lemma NoStreamNoFrames(cfg: Config, h: Histories, live: Live, now: Time, host: Account)
    requires History.ValidHistories(cfg, h, live, now)
    ensures FramesOf(h, host) != [] ==> host in h.streams
  {}

  lemma ReceivedIsDrawn(cfg: Config, s: State, call: Call, host: Account, p: Reader)
    requires Inv(cfg, s) && Recorded(s.histories, host, Log(p))
    ensures Drawn(Received(cfg, s, call, host, p), Log(p))
    ensures forall f :: f in Received(cfg, s, call, host, p) ==> f.cursor > p.seen
  {
    hide Inv, Step, Drawn, Numbered, Pruned, FirstAfter, FramesOf;
    NothingDrawn(Log(p));
    if Polls(call, host, p) && Step(cfg, s, call).1.Frames? {
      var time := Max(s.now, call.at);
      PollIsWindow(cfg, s, call, host, p);
      PrunedRecords(s.histories, host, time, Log(p));
      var frames := FramesOf(Pruned(s.histories, host, time), host);
      if frames == [] { NothingAfter(p.seen, call.limit); } else { WindowIsDrawn(frames, p.seen, call.limit, Log(p)); }
    }
  }

  /**
   * An untruncated poll over a history whose expiries never go back starts as many frames into it as the cursor says.
   * That is where the reader stands when no history began since; otherwise it holds nothing of this one, and the poll
   * misses exactly the first of its frames. So the poll is exact if and only if there was no restart or the cursor
   * is 0.
   */
  lemma PollStartsAtCursor(cfg: Config, s: State, call: Call, host: Account, p: Reader)
    requires Inv(cfg, s) && Placed(p) && Tracks(s.histories, host, Log(p)) && Steady(Log(p))
    requires Polls(call, host, p) && Step(cfg, s, call).1.Frames? && call.limit > 0
    requires var window := Step(cfg, s, call).1.window; !window.truncated && window.oldest.Some?
    ensures var frames, log, m := Step(cfg, s, call).1.window.frames, Log(p), Min(p.seen, |Log(p)|);
      frames == log[m..Min(m + call.limit, |log|)]
    ensures var frames, log, held := Step(cfg, s, call).1.window.frames, Log(p), if Restarted(p) then 0 else p.seen;
      held <= |log| && (frames == log[held..Min(held + call.limit, |log|)] <==> !Restarted(p) || p.seen == 0)
  {
    hide Inv, Step, Pruned, FirstAfter, FramesOf, Matching, Ascending, Steady;
    var time := Max(s.now, call.at);
    PollIsWindow(cfg, s, call, host, p);
    PrunedTracks(s.histories, host, time, Log(p));
    UntruncatedWindow(FramesOf(Pruned(s.histories, host, time), host), Log(p), p.seen, call.limit);
    if Restarted(p) && p.seen > 0 { LaterSliceDiffers(Log(p), Min(p.seen, |Log(p)|), call.limit); }
  }

  lemma LaterSliceDiffers(log: seq<Frame>, m: nat, limit: nat)
    requires Numbered(log) && 0 < m <= |log| && limit > 0
    ensures log[m..Min(m + limit, |log|)] != log[0..Min(limit, |log|)]
  {
    var later, first := log[m..Min(m + limit, |log|)], log[0..Min(limit, |log|)];
    assert first[0] == log[0];
    if later != [] { assert later[0] == log[m]; }
  }

  // ---------------------------------------------------------------- runs

  /** A poll that returns frames came before a new history began, and its cursors follow the reader's. */
  predicate Continues(cfg: Config, s: State, call: Call, host: Account, p: Reader) {
    var frames := Received(cfg, s, call, host, p);
    frames == [] || (!Restarted(p) && Consecutive(frames, p.seen))
  }

  predicate Unbroken(cfg: Config, s: State, calls: seq<Call>, host: Account, p: Reader)
    decreases |calls|
  {
    calls == [] ||
    (Continues(cfg, s, calls[0], host, p) &&
     Unbroken(cfg, Step(cfg, s, calls[0]).0, calls[1..], host, Observe(cfg, s, calls[0], host, p)))
  }

  ghost predicate Follows(s: State, host: Account, p: Reader) {
    Recorded(s.histories, host, Log(p)) && Placed(p)
  }

  lemma StepFollows(cfg: Config, s: State, call: Call, host: Account, p: Reader)
    requires Inv(cfg, s) && cfg.Valid() && Follows(s, host, p)
    ensures Follows(Step(cfg, s, call).0, host, Observe(cfg, s, call, host, p))
    ensures Complete(p) ==> (Complete(Observe(cfg, s, call, host, p)) <==> Continues(cfg, s, call, host, p))
    ensures p.places <= Observe(cfg, s, call, host, p).places
  {
    hide Inv, Step, Recorded, Placed, Complete, Drawn, Received;
    StepTracks(cfg, s, call, host, p);
    var reply := Step(cfg, s, call).1;
    if call.Publish? && call.account == host && reply.Published? {
      var frame := Frame(reply.cursor, call.expiresAt, call.sequence, call.payload);
      AppendedPlaces(p, frame, StartsHistory(s, call));
      NotReceived(cfg, s, call, host, p, frame);
    } else {
      ReceivedIsDrawn(cfg, s, call, host, p);
      TookPlaces(p, Received(cfg, s, call, host, p));
      if Complete(p) { TookCompletes(p, Received(cfg, s, call, host, p)); }
    }
  }

  lemma NotReceived(cfg: Config, s: State, call: Call, host: Account, p: Reader, frame: Frame)
    requires call.Publish?
    ensures Received(cfg, s, call, host, p) == [] &&
      (Complete(p) ==> Complete(Appended(p, frame, StartsHistory(s, call))))
  {}

  lemma {:induction false} RunFollows(cfg: Config, s: State, calls: seq<Call>, host: Account, p: Reader)
    requires Inv(cfg, s) && cfg.Valid() && Follows(s, host, p)
    ensures var end := Observed(cfg, s, calls, host, p);
      Placed(end) && p.places <= end.places &&
      (Complete(p) ==> (Complete(end) <==> Unbroken(cfg, s, calls, host, p)))
    decreases |calls|
  {
    hide Inv, Step, Observe, Recorded, Placed, Complete, Continues;
    if calls != [] {
      var next, q := Step(cfg, s, calls[0]).0, Observe(cfg, s, calls[0], host, p);
      StepKeeps(cfg, s, calls[0]);
      StepFollows(cfg, s, calls[0], host, p);
      RunFollows(cfg, next, calls[1..], host, q);
      CompleteBefore(q, Observed(cfg, next, calls[1..], host, q));
    }
  }

  /** What was skipped stays skipped. */
  lemma CompleteBefore(p: Reader, q: Reader)
    requires p.places <= q.places
    ensures Complete(q) ==> Complete(p)
  {}

  lemma FreshFollows(now: Time, host: Account)
    ensures Follows(Initial(now), host, Fresh()) && Complete(Fresh())
  {}

  /** In every run the reader gets frames that were published, each at most once and in the order of publication. */
  lemma CollectsInOrder(cfg: Config, now: Time, calls: seq<Call>, host: Account)
    requires cfg.Valid()
    ensures var end := Observed(cfg, Initial(now), calls, host, Fresh()); Matching(end) && Ascending(end.places)
  {
    hide Inv, Step, Observed, Matching, Ascending, Follows, Complete;
    InitialIsValid(cfg, now);
    FreshFollows(now, host);
    RunFollows(cfg, Initial(now), calls, host, Fresh());
  }

  /** In every run the reader misses nothing exactly when each of its polls that returned frames continued the last. */
  lemma CompleteIffUnbroken(cfg: Config, now: Time, calls: seq<Call>, host: Account)
    requires cfg.Valid()
    ensures Complete(Observed(cfg, Initial(now), calls, host, Fresh())) <==>
      Unbroken(cfg, Initial(now), calls, host, Fresh())
  {
    hide Inv, Step, Observed, Unbroken, Placed, Follows, Complete;
    InitialIsValid(cfg, now);
    FreshFollows(now, host);
    RunFollows(cfg, Initial(now), calls, host, Fresh());
  }

  // ---------------------------------------------------------------- steady expiries

  /** Along the whole run, frames of one history are published with nondecreasing expiries. */
  ghost predicate SteadyRun(cfg: Config, s: State, calls: seq<Call>, host: Account, p: Reader)
    decreases |calls|
  {
    Steady(Log(p)) &&
    (calls != [] ==> SteadyRun(cfg, Step(cfg, s, calls[0]).0, calls[1..], host, Observe(cfg, s, calls[0], host, p)))
  }

  /** A poll that returns frames came before a new history began and reported no loss. */
  predicate Untruncated(cfg: Config, s: State, call: Call, host: Account, p: Reader) {
    Received(cfg, s, call, host, p) == [] || (!Restarted(p) && !Step(cfg, s, call).1.window.truncated)
  }

  predicate Unreported(cfg: Config, s: State, calls: seq<Call>, host: Account, p: Reader)
    decreases |calls|
  {
    calls == [] ||
    (Untruncated(cfg, s, calls[0], host, p) &&
     Unreported(cfg, Step(cfg, s, calls[0]).0, calls[1..], host, Observe(cfg, s, calls[0], host, p)))
  }

  lemma SteadyPoll(cfg: Config, s: State, call: Call, host: Account, p: Reader)
    requires Inv(cfg, s) && Tracks(s.histories, host, Log(p)) && Steady(Log(p))
    ensures Continues(cfg, s, call, host, p) <==> Untruncated(cfg, s, call, host, p)
  {
    hide Inv, Step, Pruned, FirstAfter, FramesOf, Steady, Consecutive, Numbered, Suffix;
    if Received(cfg, s, call, host, p) != [] {
      var time := Max(s.now, call.at);
      PollIsWindow(cfg, s, call, host, p);
      PrunedTracks(s.histories, host, time, Log(p));
      var frames := FramesOf(Pruned(s.histories, host, time), host);
      NothingAfter(p.seen, call.limit);
      FlagIsExact(frames, Log(p), p.seen, call.limit);
    }
  }

  lemma {:induction false} SteadyRunReports(cfg: Config, s: State, calls: seq<Call>, host: Account, p: Reader)
    requires Inv(cfg, s) && cfg.Valid() && Follows(s, host, p) && Tracks(s.histories, host, Log(p))
    requires SteadyRun(cfg, s, calls, host, p)
    ensures Unbroken(cfg, s, calls, host, p) <==> Unreported(cfg, s, calls, host, p)
    decreases |calls|
  {
    hide Inv, Step, Observe, Steady, Tracks, Recorded, Placed, Continues, Untruncated;
    if calls != [] {
      StepKeeps(cfg, s, calls[0]);
      StepFollows(cfg, s, calls[0], host, p);
      StepTracks(cfg, s, calls[0], host, p);
      SteadyPoll(cfg, s, calls[0], host, p);
      SteadyRunReports(cfg, Step(cfg, s, calls[0]).0, calls[1..], host, Observe(cfg, s, calls[0], host, p));
    }
  }

  /** When expiries never go back, what the truncation flag does not report is exactly what new histories skip. */
  lemma CompleteIffUnreported(cfg: Config, now: Time, calls: seq<Call>, host: Account)
    requires cfg.Valid() && SteadyRun(cfg, Initial(now), calls, host, Fresh())
    ensures Complete(Observed(cfg, Initial(now), calls, host, Fresh())) <==>
      Unreported(cfg, Initial(now), calls, host, Fresh())
  {
    hide Inv, Step, Observed, Unbroken, Unreported, SteadyRun, Follows, Complete;
    InitialIsValid(cfg, now);
    FreshFollows(now, host);
    CompleteIffUnbroken(cfg, now, calls, host);
    SteadyRunReports(cfg, Initial(now), calls, host, Fresh());
  }

  lemma {:induction false} SteadyRunTracks(cfg: Config, s: State, calls: seq<Call>, host: Account, p: Reader)
    requires Inv(cfg, s) && cfg.Valid() && Follows(s, host, p) && Tracks(s.histories, host, Log(p))
    requires SteadyRun(cfg, s, calls, host, p)
    ensures var end, q := After(cfg, s, calls), Observed(cfg, s, calls, host, p);
      Inv(cfg, end) && Placed(q) && Tracks(end.histories, host, Log(q)) && Steady(Log(q))
    decreases |calls|
  {
    hide Inv, Step, Observe, Steady, Tracks, Recorded, Placed;
    if calls != [] {
      StepKeeps(cfg, s, calls[0]);
      StepFollows(cfg, s, calls[0], host, p);
      StepTracks(cfg, s, calls[0], host, p);
      SteadyRunTracks(cfg, Step(cfg, s, calls[0]).0, calls[1..], host, Observe(cfg, s, calls[0], host, p));
    }
  }

  /** After every steady run, an untruncated poll is exact if and only if no history began since or the cursor is 0. */
  lemma PollExactIffNoRestart(cfg: Config, now: Time, calls: seq<Call>, host: Account, call: Call)
    requires cfg.Valid() && SteadyRun(cfg, Initial(now), calls, host, Fresh())
    requires var s, p := After(cfg, Initial(now), calls), Observed(cfg, Initial(now), calls, host, Fresh());
      Polls(call, host, p) && call.limit > 0 && Step(cfg, s, call).1.Frames? &&
      !Step(cfg, s, call).1.window.truncated && Step(cfg, s, call).1.window.oldest.Some?
    ensures var s, p := After(cfg, Initial(now), calls), Observed(cfg, Initial(now), calls, host, Fresh());
      var frames, log, m := Step(cfg, s, call).1.window.frames, Log(p), Min(p.seen, |Log(p)|);
      var held := if Restarted(p) then 0 else p.seen;
      frames == log[m..Min(m + call.limit, |log|)] &&
      held <= |log| && (frames == log[held..Min(held + call.limit, |log|)] <==> !Restarted(p) || p.seen == 0)
  {
    hide Inv, Step, After, Observed, SteadyRun, Tracks, Placed, Steady;
    InitialIsValid(cfg, now);
    FreshFollows(now, host);
    FreshTracks(now, host);
    SteadyRunTracks(cfg, Initial(now), calls, host, Fresh());
    PollStartsAtCursor(cfg, After(cfg, Initial(now), calls), call, host,
      Observed(cfg, Initial(now), calls, host, Fresh()));
  }

  lemma FreshTracks(now: Time, host: Account)
    ensures Tracks(Initial(now).histories, host, Log(Fresh()))
  {}
}
