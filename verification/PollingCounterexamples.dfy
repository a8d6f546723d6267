/** Two runs on which a poll skips a frame and reports nothing: after a new history, and when a frame expires early. */
module PollingCounterexamples {
  import opened Basics
  import opened RealtimeTypes
  import Registry = SessionRegistry
  import Board = PresenceBoard
  import Relations = SpectatorRelations
  import opened FrameRing
  import opened FramePolling
  import opened RealtimeScripts
  import opened RealtimeRuns
  import opened PollingRuns

  const HOST: Account := Account(1)
  const EPOCH: Epoch := Epoch(SessionId(1), 1)

  function Small(): Config { Config(_ => 100, 100, 100, 10, 10, 1, 1) }

  function Publishing(sequence: nat, payload: string, expiresAt: Time, reset: bool): Call {
    Publish(HOST, EPOCH, sequence, payload, expiresAt, reset)
  }

  function Reading(after: nat, at: Time): Call { Read(HOST, EPOCH, at, Some(after), 10) }

  /** The host is online until 100 with these frames, the clock at 0. */
  ghost predicate Online(s: State, frames: seq<Frame>) {
    s.now == 0 && s.registry.epochs == map[HOST := Lease(EPOCH, 100)] &&
    s.registry.sessions == map[EPOCH.session := Registry.Session(HOST, 1, 100, 100)] &&
    s.board.presence == map[HOST := Board.Presence(EPOCH, 100, "")] &&
    if frames == [] then s.histories == NoHistories()
    else
      s.histories.rings.Keys == {HOST} && s.histories.rings[HOST].frames == frames &&
      s.histories.streams.Keys == {HOST} &&
      var last := frames[|frames| - 1];
      var stream := s.histories.streams[HOST];
      stream.cursor == last.cursor && stream.sequence == last.sequence && stream.epoch == EPOCH
  }

  /** A run from the empty store that leaves these frames and this reader. */
  ghost predicate Leads(calls: seq<Call>, frames: seq<Frame>, p: Reader) {
    Online(After(Small(), Initial(0), calls), frames) && Observed(Small(), Initial(0), calls, HOST, Fresh()) == p
  }

  lemma {:induction false} OneMore(cfg: Config, s: State, calls: seq<Call>, call: Call, p: Reader)
    ensures var end, q := After(cfg, s, calls), Observed(cfg, s, calls, HOST, p);
      After(cfg, s, calls + [call]) == Step(cfg, end, call).0 &&
      Observed(cfg, s, calls + [call], HOST, p) == Observe(cfg, end, call, HOST, q)
    decreases |calls|
  {
    hide Step, Observe;
    if calls == [] {
      assert calls + [call] == [call] && [call][1..] == [];
    } else {
      assert (calls + [call])[1..] == calls[1..] + [call];
      OneMore(cfg, Step(cfg, s, calls[0]).0, calls[1..], call, Observe(cfg, s, calls[0], HOST, p));
    }
  }

  // ---------------------------------------------------------------- single calls

  lemma OpenedOnline()
    ensures var first := Step(Small(), Initial(0), Open(HOST, EPOCH.session, 100)).0;
      Online(Step(Small(), first, Appear(HOST, EPOCH, 100, "", 0)).0, [])
  {}

  /** Few and short frames, none expired, in cursor order. */
  ghost predicate Roomy(frames: seq<Frame>) {
    |frames| < 5 && Bytes(frames) < 5 && (forall i :: 0 <= i < |frames| ==> frames[i].expiresAt > 0) &&
    forall i :: 0 <= i < |frames| ==> frames[i].cursor <= frames[|frames| - 1].cursor
  }

  function Next(frames: seq<Frame>, payload: string, expiresAt: Time, reset: bool): Frame {
    if reset || frames == [] then Frame(1, expiresAt, 0, payload)
    else var last := frames[|frames| - 1]; Frame(last.cursor + 1, expiresAt, last.sequence + 1, payload)
  }

  lemma NoneIsRoomy()
    ensures Roomy([])
  {}

  /** What a publication leaves when nothing has to go. */
  lemma PublishedHistory(h: Histories, frames: seq<Frame>, frame: Frame, reset: bool)
    requires (frames == [] ==> h == NoHistories()) &&
      (frames != [] ==> HOST in h.streams && h.streams[HOST].epoch == EPOCH)
    requires FramesOf(h, HOST) == frames && Roomy(frames) && |frame.payload| == 1
    requires frames != [] && !reset ==> frames[|frames| - 1].cursor < frame.cursor
    ensures var after := FrameRing.Published(Small(), h, HOST, EPOCH, 0, frame, reset);
      after.rings.Keys == h.rings.Keys + {HOST} && after.streams.Keys == h.streams.Keys + {HOST} &&
      after.rings[HOST].frames == (if reset then [] else frames) + [frame] &&
      after.streams[HOST].cursor == frame.cursor && after.streams[HOST].sequence == frame.sequence &&
      after.streams[HOST].epoch == EPOCH
  {
    hide Survivors, Evicted, Insert, Bytes, LatestExpiry;
    NoneIsRoomy();
    var carried := if reset then [] else frames;
    AllSurvive(carried, 0);
    assert Evicted(Small(), carried, 1) == carried by { FitsAtOnce(carried); }
    InsertGreatest(carried, frame);
  }

  lemma FitsAtOnce(frames: seq<Frame>)
    requires Roomy(frames)
    ensures Evicted(Small(), frames, 1) == frames
  {}

  lemma PublishedOnline(s: State, frames: seq<Frame>, payload: string, expiresAt: Time, reset: bool)
    requires Online(s, frames) && Roomy(frames) && |payload| == 1 && 0 < expiresAt <= 100
    requires frames != [] ==> frames[|frames| - 1].sequence < 10 && frames[|frames| - 1].cursor < 10
    ensures var next := Next(frames, payload, expiresAt, reset);
      var call := Publishing(next.sequence, payload, expiresAt, reset);
      Step(Small(), s, call).1.Published? && Step(Small(), s, call).1.cursor == next.cursor &&
      StartsHistory(s, call) == (reset || frames == []) &&
      Online(Step(Small(), s, call).0, (if reset then [] else frames) + [next])
  {
    hide FrameRing.Published, Roomy, Relations.Swept, Relations.ListedRelations, Relations.Reachable, Relations.Named;
    hide Registry.StatusOf, PresenceUntil, StreamFor, FrameRing.NonMonotonic;
    Accepted(s, frames, payload, expiresAt, reset);
    PublishedHistory(s.histories, frames, Next(frames, payload, expiresAt, reset), reset);
  }

  lemma Accepted(s: State, frames: seq<Frame>, payload: string, expiresAt: Time, reset: bool)
    requires Online(s, frames) && (frames != [] ==> frames[|frames| - 1].sequence < 10)
    ensures Status(s, HOST, EPOCH, 0) == Registry.Current(100, 100) && PresenceUntil(s, HOST, EPOCH) == Some(100)
    ensures var stream, next := StreamFor(s.histories, HOST, EPOCH, reset), Next(frames, payload, expiresAt, reset);
      NextCursor(stream) == next.cursor && (stream.None? <==> reset || frames == []) &&
      (stream.Some? ==>
        stream.value.cursor == frames[|frames| - 1].cursor &&
        !FrameRing.NonMonotonic(stream.value.sequence, next.sequence))
  {}

  /** A read at a time that the last frame survives. */
  lemma ReadOnline(s: State, frames: seq<Frame>, after: nat, at: Time)
    requires Online(s, frames) && frames != [] && |frames| < 5 && at < 100 && frames[|frames| - 1].expiresAt > at
    ensures var call := Reading(after, at); var left := Survivors(frames, at);
      Step(Small(), s, call).1 == Frames(WindowAfter(left, after, 10)) &&
      Online(Step(Small(), s, call).0, left)
  {
    hide Survivors, Bytes, LatestExpiry, FirstAfter;
    LastSurvives(frames, at);
  }

  lemma {:induction false} LastSurvives(frames: seq<Frame>, at: Time)
    requires frames != [] && frames[|frames| - 1].expiresAt > at
    ensures var left := Survivors(frames, at); left != [] && left[|left| - 1] == frames[|frames| - 1]
  {
    if |frames| > 1 { LastSurvives(frames[1..], at); }
  }

  // ---------------------------------------------------------------- runs

  function Opening(): seq<Call> { [Open(HOST, EPOCH.session, 100)] + [Appear(HOST, EPOCH, 100, "", 0)] }

  lemma OpeningLeads()
    ensures Leads(Opening(), [], Fresh())
  {
    var first := [Open(HOST, EPOCH.session, 100)];
    OpenedOnline();
    OneMore(Small(), Initial(0), [], first[0], Fresh());
    assert [] + first == first;
    OneMore(Small(), Initial(0), first, Appear(HOST, EPOCH, 100, "", 0), Fresh());
  }

  lemma PublishLeads(calls: seq<Call>, frames: seq<Frame>, p: Reader, payload: string, expiresAt: Time, reset: bool)
    requires Leads(calls, frames, p) && Roomy(frames) && |payload| == 1 && 0 < expiresAt <= 100
    requires frames != [] ==> frames[|frames| - 1].sequence < 10 && frames[|frames| - 1].cursor < 10
    ensures var next := Next(frames, payload, expiresAt, reset);
      Leads(calls + [Publishing(next.sequence, payload, expiresAt, reset)],
        (if reset then [] else frames) + [next], Appended(p, next, reset || frames == []))
  {
    hide Step, After, Observed, Online, Roomy;
    var s, next := After(Small(), Initial(0), calls), Next(frames, payload, expiresAt, reset);
    PublishedOnline(s, frames, payload, expiresAt, reset);
    OneMore(Small(), Initial(0), calls, Publishing(next.sequence, payload, expiresAt, reset), Fresh());
  }

  lemma ReadLeads(calls: seq<Call>, frames: seq<Frame>, p: Reader, at: Time)
    requires Leads(calls, frames, p) && frames != [] && |frames| < 5 && at < 100 && frames[|frames| - 1].expiresAt > at
    ensures var left := Survivors(frames, at); var window := WindowAfter(left, p.seen, 10);
      Step(Small(), After(Small(), Initial(0), calls), Reading(p.seen, at)).1 == Frames(window) &&
      Leads(calls + [Reading(p.seen, at)], left, Took(p, window.frames))
  {
    hide Step, After, Observed, Online, Survivors, FirstAfter, Took;
    var s := After(Small(), Initial(0), calls);
    ReadOnline(s, frames, p.seen, at);
    OneMore(Small(), Initial(0), calls, Reading(p.seen, at), Fresh());
  }

  function First(): Frame { Frame(1, 100, 0, "a") }

  function Second(): Frame { Frame(1, 100, 0, "b") }

  function Third(): Frame { Frame(2, 100, 1, "c") }

  /** The host publishes a, the reader polls and gets it, and the host begins a new play with b and c. */
  function NewPlay(): seq<Call> {
    Polled() + [Publishing(0, "b", 100, true)] + [Publishing(1, "c", 100, false)]
  }

  function Polled(): seq<Call> { Opening() + [Publishing(0, "a", 100, true)] + [Reading(0, 0)] }

  lemma FirstLeads()
    ensures Leads(Opening() + [Publishing(0, "a", 100, true)], [First()], Reader([First()], 0, 0, 0, [], []))
  {
    hide Leads, Opening, Step, Roomy;
    OpeningLeads();
    NoneIsRoomy();
    PublishLeads(Opening(), [], Fresh(), "a", 100, true);
    assert Appended(Fresh(), First(), true) == Reader([First()], 0, 0, 0, [], []) && [] + [First()] == [First()];
  }

  lemma PolledLeads()
    ensures Leads(Polled(), [First()], Reader([First()], 0, 1, 0, [First()], [0]))
  {
    hide Leads, Opening, Step, Survivors, FirstAfter;
    var p := Reader([First()], 0, 0, 0, [], []);
    FirstLeads();
    ReadLeads(Opening() + [Publishing(0, "a", 100, true)], [First()], p, 0);
    OneFrame(First());
    assert Took(p, [First()]) == Reader([First()], 0, 1, 0, [First()], [0]);
  }

  lemma NewPlayLeads()
    ensures Leads(NewPlay(), [Second(), Third()], Reader([First(), Second(), Third()], 1, 1, 0, [First()], [0]))
  {
    hide Leads, Polled, Step, Roomy, Survivors, FirstAfter;
    var q := Reader([First()], 0, 1, 0, [First()], [0]);
    var r := Reader([First(), Second()], 1, 1, 0, [First()], [0]);
    PolledLeads();
    OneFrame(First());
    PublishLeads(Polled(), [First()], q, "b", 100, true);
    assert Appended(q, Second(), true) == r && [] + [Second()] == [Second()];
    OneFrame(Second());
    PublishLeads(Polled() + [Publishing(0, "b", 100, true)], [Second()], r, "c", 100, false);
    assert Appended(r, Third(), false) == Reader([First(), Second(), Third()], 1, 1, 0, [First()], [0]);
    assert [Second()] + [Third()] == [Second(), Third()];
  }

  lemma OneFrame(frame: Frame)
    requires frame.cursor == 1 && frame.expiresAt == 100 && |frame.payload| == 1
    ensures Survivors([frame], 0) == [frame] && Roomy([frame]) && FirstAfter([frame], 0, 10) == [frame]
  {
    NothingAfter(0, 9);
    assert Survivors([], 0) == [];
    assert [frame][1..] == [];
  }

  lemma TwoFrames(a: Frame, b: Frame)
    requires a.cursor == 1 && b.cursor == 2 && a.expiresAt == 100 && b.expiresAt == 100
    ensures Survivors([a, b], 0) == [a, b] && FirstAfter([a, b], 1, 10) == [b]
  {
    assert [a, b][1..] == [b] && [b][1..] == [];
    NothingAfter(1, 9);
    assert Survivors([], 0) == [];
    assert Survivors([b], 0) == [b] && FirstAfter([b], 1, 10) == [b];
  }

  /** The next poll returns c, reports no loss, and the reader never learns of b. */
  lemma NewHistorySkipsSilently()
    ensures var s, p := After(Small(), Initial(0), NewPlay()), Observed(Small(), Initial(0), NewPlay(), HOST, Fresh());
      var poll := Reading(p.seen, 0);
      var end := Observe(Small(), s, poll, HOST, p);
      Step(Small(), s, poll).1 == Frames(Window(Some(1), Some(2), false, [Third()])) &&
      end.published == [First(), Second(), Third()] && end.collected == [First(), Third()] && !Complete(end)
  {
    hide Step, After, Observed, Observe, NewPlay, Online;
    NewPlayLeads();
    var s, p := After(Small(), Initial(0), NewPlay()), Observed(Small(), Initial(0), NewPlay(), HOST, Fresh());
    ReadLeads(NewPlay(), [Second(), Third()], p, 0);
    TwoFrames(Second(), Third());
    OneMore(Small(), Initial(0), NewPlay(), Reading(p.seen, 0), Fresh());
    var end := Took(p, [Third()]);
    assert end.collected == [First()] + [Third()] == [First(), Third()];
    assert end.places[1] == 2;
  }

  // ---------------------------------------------------------------- early expiry

  /** The second of three frames expires first. */
  function EarlyExpiry(): seq<Call> {
    Opening() + [Publishing(0, "a", 100, true)] + [Publishing(1, "b", 10, false)] + [Publishing(2, "c", 100, false)]
  }

  function Short(): Frame { Frame(2, 10, 1, "b") }

  function Last(): Frame { Frame(3, 100, 2, "c") }

  lemma EarlyExpiryLeads()
    ensures Leads(EarlyExpiry(), [First(), Short(), Last()], Reader([First(), Short(), Last()], 0, 0, 0, [], []))
  {
    hide Leads, Opening, Step, Roomy;
    var one := Opening() + [Publishing(0, "a", 100, true)];
    var p := Reader([First()], 0, 0, 0, [], []);
    var q := Reader([First(), Short()], 0, 0, 0, [], []);
    FirstLeads();
    OneFrame(First());
    PublishLeads(one, [First()], p, "b", 10, false);
    assert Appended(p, Short(), false) == q && [First()] + [Short()] == [First(), Short()];
    assert Roomy([First(), Short()]) by { ShortIsRoomy(); }
    PublishLeads(one + [Publishing(1, "b", 10, false)], [First(), Short()], q, "c", 100, false);
    assert Appended(q, Last(), false) == Reader([First(), Short(), Last()], 0, 0, 0, [], []);
    assert [First(), Short()] + [Last()] == [First(), Short(), Last()];
  }

  lemma ShortIsRoomy()
    ensures Roomy([First(), Short()])
  {
    assert [First(), Short()][1..] == [Short()] && [Short()][1..] == [];
    assert Bytes([Short()]) == 1;
  }

  lemma ThreeFrames(a: Frame, b: Frame, c: Frame)
    requires a.cursor == 1 && c.cursor == 3 && a.expiresAt == 100 && b.expiresAt == 10 && c.expiresAt == 100
    ensures Survivors([a, b, c], 10) == [a, c] && FirstAfter([a, c], 0, 10) == [a, c]
  {
    assert [a, b, c][1..] == [b, c] && [b, c][1..] == [c] && [c][1..] == [] && [a, c][1..] == [c];
    NothingAfter(0, 8);
    assert Survivors([], 10) == [];
    assert Survivors([c], 10) == [c] && FirstAfter([c], 0, 9) == [c];
    assert Survivors([b, c], 10) == [c];
  }

  /** Without any new history, a frame that expires before an earlier one is skipped and not reported. */
  lemma EarlyExpirySkipsSilently()
    ensures var s := After(Small(), Initial(0), EarlyExpiry());
      var p := Observed(Small(), Initial(0), EarlyExpiry(), HOST, Fresh());
      var poll := Reading(p.seen, 10);
      Step(Small(), s, poll).1 == Frames(Window(Some(1), Some(3), false, [First(), Last()])) &&
      !Restarted(p) && !Complete(Observe(Small(), s, poll, HOST, p))
  {
    hide Step, After, Observed, Observe, EarlyExpiry, Online;
    EarlyExpiryLeads();
    var p := Observed(Small(), Initial(0), EarlyExpiry(), HOST, Fresh());
    ReadLeads(EarlyExpiry(), [First(), Short(), Last()], p, 10);
    ThreeFrames(First(), Short(), Last());
    OneMore(Small(), Initial(0), EarlyExpiry(), Reading(p.seen, 10), Fresh());
    assert Took(p, [First(), Last()]).places[1] == 2;
  }
}
