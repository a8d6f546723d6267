/** Accounts, session epochs, deadlines, and sorted sets whose key lives until their greatest score. */
module RealtimeTypes {
  import opened Basics

  datatype Account = Account(id: nat)

  datatype SessionId = SessionId(uuid: nat)

  datatype ChannelId = ChannelId(id: nat)

  const MAX_REVISION: nat := 0x7FFF_FFFF_FFFF_FFFF
  const MAX_CURSOR: nat := 0x7FFF_FFFF_FFFF_FFFF

  /** One opening of a session: reopening the same session gives the next revision. */
  datatype Epoch = Epoch(session: SessionId, revision: nat)

  /** The current epoch of an account and the deadline of its keys. */
  datatype Lease = Lease(epoch: Epoch, expiresAt: Time)

  type Live = map<Account, Lease>

  /** What the repository object is built with, and the durable deadline of every session id. */
  datatype Config = Config(
    durable: SessionId -> Time,
    sessionTtl: nat,
    presenceTtl: nat,
    maxFrames: nat,
    maxBytes: nat,
    maxChannels: nat,
    maxViewers: nat)
  {
    predicate Valid() {
      sessionTtl > 0 && presenceTtl > 0 && maxFrames > 0 && maxBytes > 0 && maxChannels > 0 && maxViewers > 0
    }
  }

  predicate Owns(live: Live, account: Account, epoch: Epoch) {
    account in live && live[account].epoch == epoch
  }

  /** No two accounts hold the same session. */
  ghost predicate OneOwner(live: Live) {
    forall a, b :: a in live && b in live && live[a].epoch.session == live[b].epoch.session ==> a == b
  }

  /** The accounts whose session has not reached its deadline. */
  function Alive(live: Live, now: Time): Live {
    map a | a in live && live[a].expiresAt > now :: live[a]
  }

  // ---------------------------------------------------------------- sorted sets

  datatype SortedSet = SortedSet(scores: map<Account, Time>, deadline: Time)

  predicate IsLatest(scores: map<Account, Time>, t: Time) {
    (exists a :: a in scores && scores[a] == t) && forall a :: a in scores ==> scores[a] <= t
  }

  lemma {:induction false} GreatestOf(scores: map<Account, Time>, keys: set<Account>) returns (a: Account)
    requires keys != {} && keys <= scores.Keys
    ensures a in keys && forall b :: b in keys ==> scores[b] <= scores[a]
    decreases |keys|
  {
    a :| a in keys;
    var rest := keys - {a};
    if rest == {} {
      assert keys == {a};
    } else {
      var c := GreatestOf(scores, rest);
      assert keys == rest + {a};
      if scores[a] < scores[c] { a := c; }
    }
  }

  lemma LatestExists(scores: map<Account, Time>)
    requires scores.Keys != {}
    ensures exists t :: t in scores.Values && IsLatest(scores, t)
  {
    var a := GreatestOf(scores, scores.Keys);
    assert scores[a] in scores.Values && IsLatest(scores, scores[a]);
  }

  /** The greatest score. */
  function Latest(scores: map<Account, Time>): (t: Time)
    requires scores.Keys != {}
    ensures IsLatest(scores, t)
  {
    LatestExists(scores);
    var t :| t in scores.Values && IsLatest(scores, t);
    t
  }

  /** The key after its deadline is moved to its greatest score; a deadline already past deletes it. */
  function Refreshed(now: Time, scores: map<Account, Time>): (z: Option<SortedSet>)
    ensures z.Some? ==> Tidy(now, z.value) && z.value.scores == scores
    ensures z.None? <==> forall a :: a in scores.Keys ==> scores[a] <= now
  {
    if scores.Keys == {} || Latest(scores) <= now then None else Some(SortedSet(scores, Latest(scores)))
  }

  /** A live key: its deadline is its greatest score and lies ahead. */
  predicate Tidy(now: Time, z: SortedSet) {
    z.scores.Keys != {} && z.deadline == Latest(z.scores) && z.deadline > now
  }

  function ScoresOf(m: map<Account, SortedSet>, key: Account): map<Account, Time> {
    if key in m then m[key].scores else map[]
  }

  /** Reading a key past its deadline finds nothing. */
  function Unexpired(m: map<Account, SortedSet>, now: Time): map<Account, SortedSet> {
    map k | k in m && m[k].deadline > now :: m[k]
  }
}
