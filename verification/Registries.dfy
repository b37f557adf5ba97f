/**
 The name-chain state machine: per-name record chains, the names live at the
 applied tip, and the anchor pool. Every transaction drives it, whatever the
 verdict on the note it carries.
 */
module Registries {
  import opened Basics
  import opened NameNotes
  import opened AnchorPools

  /** One confirmed state in a name's chain. */
  datatype NameRecord = NameRecord(
    name: Name,
    action: Action,
    ua: UnifiedAddress,
    expiresAt: Expiry,
    commitment: Commitment,
    confirmedHeight: Height,
    releaseDeadline: Timestamp,
    nullifier: Nullifier)

  function Create(net: Network, note: NameNote, nullifier: Nullifier, height: Height, mtp: Timestamp): NameRecord {
    NameRecord(note.name, note.Act(), note.ua, note.ExpiryOf(), net.commit(note), height,
               mtp + LIVENESS_INTERVAL, nullifier)
  }

  predicate ReleaseDue(r: NameRecord, mtp: Timestamp) {
    Expired(r.expiresAt, mtp) || mtp >= r.releaseDeadline
  }

  type Records = map<Name, NameRecord>
  type History = map<Name, seq<NameRecord>>

  datatype Reg = Reg(records: Records, history: History, pool: Pool)

  const EMPTY_REG := Reg(map[], map[], EMPTY_POOL)

  function RecordHistory(r: Reg, name: Name): seq<NameRecord> {
    if name in r.history then r.history[name] else []
  }

  function SetRecord(r: Reg, rec: NameRecord): Reg {
    r.(history := r.history[rec.name := RecordHistory(r, rec.name) + [rec]],
       records := if rec.action.Release? then r.records - {rec.name} else r.records[rec.name := rec])
  }

  /** The names whose current notes these nullifiers spend. */
  function NamesSpentBy(r: Reg, nfs: seq<Nullifier>): set<Name> {
    set n | n in r.records && r.records[n].nullifier in nfs
  }

  function ReleasedCopy(rec: NameRecord, height: Height): NameRecord {
    rec.(action := Release, confirmedHeight := height)
  }

  /** Each of these names that is live is released, in order. */
  function ReleaseAll(r: Reg, names: seq<Name>, height: Height): Reg {
    if names == [] then r
    else
      var r1 := ReleaseAll(r, names[..|names| - 1], height);
      var name := names[|names| - 1];
      if name in r1.records then SetRecord(r1, ReleasedCopy(r1.records[name], height)) else r1
  }

  function MarkReleased(r: Reg, nfs: seq<Nullifier>, height: Height): Reg {
    ReleaseAll(r, Ascending(NamesSpentBy(r, nfs)), height)
  }

  function FollowSpends(r: Reg, nfs: seq<Nullifier>, height: Height): Reg {
    MarkReleased(r.(pool := RetireSpent(r.pool, nfs, None, height)), nfs, height)
  }

  /** A claim inside the expiry window of the latest release was built before that release. */
  predicate BuiltBeforeRelease(net: Network, r: Reg, name: Name, expiry: Height) {
    var chain := RecordHistory(r, name);
    chain != [] &&
    var latest := chain[|chain| - 1];
    latest.action.Release? && expiry <= latest.confirmedHeight + net.expiryDelta(latest.confirmedHeight)
  }

  /** How many of these nullifiers, with repetition, are live anchors. */
  function CountLive(p: Pool, nfs: seq<Nullifier>): nat {
    if nfs == [] then 0
    else CountLive(p, nfs[..|nfs| - 1]) + (if nfs[|nfs| - 1] in p.live then 1 else 0)
  }

  /** The claim law: one anchor spent, no Name Note spent, the name free and not freshly released. */
  predicate ClaimAdmitted(net: Network, r: Reg, name: Name, nfs: seq<Nullifier>, expiry: Height) {
    && CountLive(r.pool, nfs) == 1
    && NamesSpentBy(r, nfs) == {}
    && name !in r.records
    && !BuiltBeforeRelease(net, r, name, expiry)
  }

  function AcceptClaim(net: Network, r: Reg, note: NameNote, nullifier: Nullifier, successor: Option<Nullifier>,
                       nfs: seq<Nullifier>, height: Height, mtp: Timestamp, expiry: Height): (Reg, bool)
    requires note.ClaimNote?
  {
    var admitted := ClaimAdmitted(net, r, note.name, nfs, expiry);
    var seated := if admitted then successor else None;
    var r1 := r.(pool := RetireSpent(r.pool, nfs, seated, height));
    if admitted && successor.Some? then
      (SetRecord(r1, Create(net, note, nullifier, height, mtp)), true)
    else
      (MarkReleased(r1, nfs, height), false)
  }

  /** The live record this transaction spent, when it is this note's own current note and nothing else. */
  function PredecessorSpent(r: Reg, name: Name, nfs: seq<Nullifier>): Option<NameRecord> {
    if NamesSpentBy(r, nfs) == {name} && Retired(r.pool, nfs) == {} then Some(r.records[name]) else None
  }

  /** Updates, releases and sales: the note either continues the chain it spent or releases it. */
  function AcceptSuccessor(net: Network, r: Reg, note: NameNote, nullifier: Nullifier, nfs: seq<Nullifier>,
                           height: Height, mtp: Timestamp): (Reg, bool)
    requires !note.ClaimNote?
  {
    match PredecessorSpent(r, note.name, nfs)
    case None => (FollowSpends(r, nfs, height), false)
    case Some(rec) =>
      if note.prev == rec.commitment then
        (SetRecord(r, Create(net, note, nullifier, height, mtp)), true)
      else
        var release := ReleaseNote(note.name, rec.ua, rec.commitment);
        (SetRecord(r, Create(net, release, nullifier, height, mtp)), false)
  }

  /** A record chain with everything above `height` popped. */
  function CutChain(chain: seq<NameRecord>, height: Height): (r: seq<NameRecord>)
    ensures r <= chain
  {
    if chain != [] && chain[|chain| - 1].confirmedHeight > height
    then CutChain(chain[..|chain| - 1], height)
    else chain
  }

  function CutHistory(history: History, height: Height): History {
    map n | n in history && CutChain(history[n], height) != [] :: CutChain(history[n], height)
  }

  /** The last record of each chain, unless it is a release. */
  function LiveOf(history: History): Records {
    map n | n in history && history[n] != [] && !history[n][|history[n]| - 1].action.Release?
      :: history[n][|history[n]| - 1]
  }

  function TruncateReg(r: Reg, height: Height): Reg {
    var cut := CutHistory(r.history, height);
    Reg(LiveOf(cut), cut, TruncatePool(r.pool, height))
  }

  // ---------------------------------------------------------------------------
  // The invariant of every reachable registry
  // ---------------------------------------------------------------------------

  /** A claim opens a chain or follows a release; nothing else does. */
  ghost predicate FitsAt(chain: seq<NameRecord>, i: nat)
    requires i < |chain|
  {
    chain[i].action.Claim? <==> (i == 0 || chain[i - 1].action.Release?)
  }

  /** `Claim (Update | Sale)* Release`, repeated; the last round may be open. */
  ghost predicate LifeCycle(chain: seq<NameRecord>) {
    forall i | 0 <= i < |chain| :: FitsAt(chain, i)
  }

  ghost predicate ChainOk(chain: seq<NameRecord>, name: Name, tip: Height) {
    && chain != []
    && (forall i | 0 <= i < |chain| :: chain[i].name == name && chain[i].confirmedHeight <= tip)
    && (forall i, j | 0 <= i < j < |chain| :: chain[i].confirmedHeight <= chain[j].confirmedHeight)
    && LifeCycle(chain)
  }

  ghost predicate RegInv(r: Reg, tip: Height) {
    && r.records == LiveOf(r.history)
    && (forall n | n in r.history :: ChainOk(r.history[n], n, tip))
    && PoolInv(r.pool, tip)
  }

  lemma RegInvRaised(r: Reg, tip: Height, height: Height)
    requires RegInv(r, tip) && tip <= height
    ensures RegInv(r, height)
  {
    LatestRaised(r.pool.checkpoints, tip, height, {});
  }

  /** A claim continues an empty or released chain; any other action continues a live one. */
  lemma ChainGrows(chain: seq<NameRecord>, rec: NameRecord, tip: Height)
    requires chain == [] || ChainOk(chain, rec.name, tip)
    requires rec.confirmedHeight == tip
    requires rec.action.Claim? <==> (chain == [] || chain[|chain| - 1].action.Release?)
    ensures ChainOk(chain + [rec], rec.name, tip)
  {
    var grown := chain + [rec];
    forall i | 0 <= i < |grown| ensures FitsAt(grown, i) {
      if i < |chain| { assert FitsAt(chain, i); }
    }
  }

  lemma LiveOfAppend(history: History, rec: NameRecord, chain: seq<NameRecord>)
    ensures LiveOf(history[rec.name := chain + [rec]])
         == if rec.action.Release? then LiveOf(history) - {rec.name} else LiveOf(history)[rec.name := rec]
  {
    assert (chain + [rec])[|chain|] == rec;
  }

  /** Appending the right action keeps a chain a life-cycle and the live map its projection. */
  lemma SetRecordKeepsInv(r: Reg, rec: NameRecord, height: Height)
    requires RegInv(r, height) && rec.confirmedHeight == height
    requires rec.action.Claim? <==> rec.name !in r.records
    ensures RegInv(SetRecord(r, rec), height)
  {
    ChainGrows(RecordHistory(r, rec.name), rec, height);
    LiveOfAppend(r.history, rec, RecordHistory(r, rec.name));
  }

  lemma {:induction false} ReleaseAllKeepsInv(r: Reg, names: seq<Name>, height: Height)
    requires RegInv(r, height)
    ensures RegInv(ReleaseAll(r, names, height), height)
    ensures ReleaseAll(r, names, height).pool == r.pool
    ensures ReleaseAll(r, names, height).records == r.records - ToSet(names)
  {
    if names != [] {
      var rest, name := names[..|names| - 1], names[|names| - 1];
      ReleaseAllKeepsInv(r, rest, height);
      assert ToSet(names) == ToSet(rest) + {name};
      var r1 := ReleaseAll(r, rest, height);
      if name in r1.records {
        SetRecordKeepsInv(r1, ReleasedCopy(r1.records[name], height), height);
      }
    }
  }

  lemma MarkReleasedKeepsInv(r: Reg, nfs: seq<Nullifier>, height: Height)
    requires RegInv(r, height)
    ensures RegInv(MarkReleased(r, nfs, height), height)
    ensures MarkReleased(r, nfs, height).pool == r.pool
    ensures MarkReleased(r, nfs, height).records == r.records - NamesSpentBy(r, nfs)
  {
    ReleaseAllKeepsInv(r, Ascending(NamesSpentBy(r, nfs)), height);
    assert ToSet(Ascending(NamesSpentBy(r, nfs))) == NamesSpentBy(r, nfs);
  }

  lemma AcceptClaimKeepsInv(net: Network, r: Reg, note: NameNote, nullifier: Nullifier, successor: Option<Nullifier>,
                            nfs: seq<Nullifier>, height: Height, mtp: Timestamp, expiry: Height)
    requires RegInv(r, height) && note.ClaimNote?
    ensures RegInv(AcceptClaim(net, r, note, nullifier, successor, nfs, height, mtp, expiry).0, height)
  {
    var admitted := ClaimAdmitted(net, r, note.name, nfs, expiry);
    var seated := if admitted then successor else None;
    RetireKeepsInv(r.pool, nfs, seated, height, height);
    var r1 := r.(pool := RetireSpent(r.pool, nfs, seated, height));
    if admitted && successor.Some? {
      SetRecordKeepsInv(r1, Create(net, note, nullifier, height, mtp), height);
    } else {
      MarkReleasedKeepsInv(r1, nfs, height);
    }
  }

  lemma FollowSpendsKeepsInv(r: Reg, nfs: seq<Nullifier>, height: Height)
    requires RegInv(r, height)
    ensures RegInv(FollowSpends(r, nfs, height), height)
  {
    RetireKeepsInv(r.pool, nfs, None, height, height);
    MarkReleasedKeepsInv(r.(pool := RetireSpent(r.pool, nfs, None, height)), nfs, height);
  }

  lemma AcceptSuccessorKeepsInv(net: Network, r: Reg, note: NameNote, nullifier: Nullifier, nfs: seq<Nullifier>,
                                height: Height, mtp: Timestamp)
    requires RegInv(r, height) && !note.ClaimNote?
    ensures RegInv(AcceptSuccessor(net, r, note, nullifier, nfs, height, mtp).0, height)
  {
    match PredecessorSpent(r, note.name, nfs)
    case None =>
      FollowSpendsKeepsInv(r, nfs, height);
    case Some(rec) =>
      assert note.name in NamesSpentBy(r, nfs);
      if note.prev == rec.commitment {
        SetRecordKeepsInv(r, Create(net, note, nullifier, height, mtp), height);
      } else {
        var release := ReleaseNote(note.name, rec.ua, rec.commitment);
        SetRecordKeepsInv(r, Create(net, release, nullifier, height, mtp), height);
      }
  }
}
