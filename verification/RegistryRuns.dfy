/**
 Whole runs of the registry: rewinding equals replaying the surviving steps,
 spent authority is dead, and anchor authority is conserved.
 */
module RegistryRuns {
  import opened Basics
  import opened NameNotes
  import opened AnchorPools
  import opened Registries

  /** What one transaction asks of the registry, in block order. */
  datatype RegStep =
    | AdoptStep(height: Height, nf: Nullifier)
    | ClaimStep(height: Height, mtp: Timestamp, note: NameNote, nullifier: Nullifier,
                successor: Option<Nullifier>, nfs: seq<Nullifier>, expiry: Height)
    | SuccessorStep(height: Height, mtp: Timestamp, note: NameNote, nullifier: Nullifier, nfs: seq<Nullifier>)
    | FollowStep(height: Height, nfs: seq<Nullifier>)
  {
    /** A claim is routed to the claim law and every other note to the successor law. */
    predicate Routed() {
      && (ClaimStep? ==> note.ClaimNote?)
      && (SuccessorStep? ==> !note.ClaimNote?)
    }
  }

  type Step = s: RegStep | s.Routed() witness AdoptStep(0, 0)

  function Apply(net: Network, r: Reg, s: Step): Reg {
    match s
    case AdoptStep(height, nf) => r.(pool := Adopt(r.pool, height, nf))
    case ClaimStep(height, mtp, note, nullifier, successor, nfs, expiry) =>
      AcceptClaim(net, r, note, nullifier, successor, nfs, height, mtp, expiry).0
    case SuccessorStep(height, mtp, note, nullifier, nfs) =>
      AcceptSuccessor(net, r, note, nullifier, nfs, height, mtp).0
    case FollowStep(height, nfs) => FollowSpends(r, nfs, height)
  }

  function ApplyAll(net: Network, r: Reg, steps: seq<Step>): Reg {
    if steps == [] then r
    else Apply(net, ApplyAll(net, r, steps[..|steps| - 1]), steps[|steps| - 1])
  }

  function Run(net: Network, steps: seq<Step>): Reg {
    ApplyAll(net, EMPTY_REG, steps)
  }

  ghost predicate Ordered(steps: seq<Step>) {
    forall i, j | 0 <= i < j < |steps| :: steps[i].height <= steps[j].height
  }

  function UpTo(steps: seq<Step>, height: Height): seq<Step> {
    if steps == [] then []
    else
      var rest, last := UpTo(steps[..|steps| - 1], height), steps[|steps| - 1];
      if last.height <= height then rest + [last] else rest
  }

  // ---------------------------------------------------------------------------
  // Invariants of every run
  // ---------------------------------------------------------------------------

  lemma ApplyKeepsInv(net: Network, r: Reg, s: Step, tip: Height)
    requires RegInv(r, tip) && tip <= s.height
    ensures RegInv(Apply(net, r, s), s.height)
  {
    RegInvRaised(r, tip, s.height);
    match s
    case AdoptStep(height, nf) => AdoptKeepsInv(r.pool, height, nf, height);
    case ClaimStep(height, mtp, note, nullifier, successor, nfs, expiry) =>
      AcceptClaimKeepsInv(net, r, note, nullifier, successor, nfs, height, mtp, expiry);
    case SuccessorStep(height, mtp, note, nullifier, nfs) =>
      AcceptSuccessorKeepsInv(net, r, note, nullifier, nfs, height, mtp);
    case FollowStep(height, nfs) => FollowSpendsKeepsInv(r, nfs, height);
  }

  /**
   Every run keeps every chain a life-cycle with nondecreasing heights, the live
   map exactly the last non-release record of each chain, and the pool lawful.
   */
  lemma {:induction false} RunKeepsInv(net: Network, steps: seq<Step>, tip: Height)
    requires Ordered(steps)
    requires forall s | s in steps :: s.height <= tip
    ensures RegInv(Run(net, steps), tip)
  {
    if steps != [] {
      var rest, last := steps[..|steps| - 1], steps[|steps| - 1];
      assert forall s | s in rest :: s.height <= last.height;
      RunKeepsInv(net, rest, last.height);
      ApplyKeepsInv(net, Run(net, rest), last, last.height);
      RegInvRaised(Run(net, steps), last.height, tip);
    }
  }

  // ---------------------------------------------------------------------------
  // Rewind equals prefix replay
  // ---------------------------------------------------------------------------

  lemma CutChainBelow(chain: seq<NameRecord>, height: Height)
    requires forall i | 0 <= i < |chain| :: chain[i].confirmedHeight <= height
    ensures CutChain(chain, height) == chain
  {
  }

  /** A rewind at or above the tip is the identity. */
  lemma TruncateAtTip(r: Reg, tip: Height, height: Height)
    requires RegInv(r, tip) && tip <= height
    ensures TruncateReg(r, height) == r
  {
    TruncatePoolAtTip(r.pool, tip, height);
    forall n | n in r.history
      ensures CutChain(r.history[n], height) == r.history[n] && r.history[n] != []
    {
      assert ChainOk(r.history[n], n, tip);
      CutChainBelow(r.history[n], height);
    }
    assert CutHistory(r.history, height) == r.history;
  }

  lemma SetRecordErased(r: Reg, rec: NameRecord, height: Height)
    requires height < rec.confirmedHeight
    ensures TruncateReg(SetRecord(r, rec), height) == TruncateReg(r, height)
  {
    var chain := RecordHistory(r, rec.name);
    assert (chain + [rec])[..|chain|] == chain;
    assert CutChain(chain + [rec], height) == CutChain(chain, height);
    assert CutHistory(SetRecord(r, rec).history, height) == CutHistory(r.history, height);
  }

  lemma {:induction false} ReleaseAllErased(r: Reg, names: seq<Name>, at: Height, height: Height)
    requires height < at
    ensures TruncateReg(ReleaseAll(r, names, at), height) == TruncateReg(r, height)
  {
    if names != [] {
      var rest, name := names[..|names| - 1], names[|names| - 1];
      ReleaseAllErased(r, rest, at, height);
      var r1 := ReleaseAll(r, rest, at);
      if name in r1.records {
        SetRecordErased(r1, ReleasedCopy(r1.records[name], at), height);
      }
    }
  }

  /** A step above the rewind height leaves no trace, whatever its verdict. */
  lemma ApplyErased(net: Network, r: Reg, s: Step, height: Height)
    requires height < s.height
    ensures TruncateReg(Apply(net, r, s), height) == TruncateReg(r, height)
  {
    match s
    case AdoptStep(at, nf) =>
      AdoptErased(r.pool, at, nf, height);
    case ClaimStep(at, mtp, note, nullifier, successor, nfs, expiry) =>
      var admitted := ClaimAdmitted(net, r, note.name, nfs, expiry);
      var seated := if admitted then successor else None;
      RetireErased(r.pool, nfs, seated, at, height);
      var r1 := r.(pool := RetireSpent(r.pool, nfs, seated, at));
      if admitted && successor.Some? {
        SetRecordErased(r1, Create(net, note, nullifier, at, mtp), height);
      } else {
        ReleaseAllErased(r1, Ascending(NamesSpentBy(r1, nfs)), at, height);
      }
    case SuccessorStep(at, mtp, note, nullifier, nfs) =>
      match PredecessorSpent(r, note.name, nfs) {
        case None => FollowErased(r, nfs, at, height);
        case Some(rec) =>
          SetRecordErased(r, Create(net, note, nullifier, at, mtp), height);
          SetRecordErased(r, Create(net, ReleaseNote(note.name, rec.ua, rec.commitment), nullifier, at, mtp), height);
      }
    case FollowStep(at, nfs) =>
      FollowErased(r, nfs, at, height);
  }

  lemma FollowErased(r: Reg, nfs: seq<Nullifier>, at: Height, height: Height)
    requires height < at
    ensures TruncateReg(FollowSpends(r, nfs, at), height) == TruncateReg(r, height)
  {
    RetireErased(r.pool, nfs, None, at, height);
    var r1 := r.(pool := RetireSpent(r.pool, nfs, None, at));
    ReleaseAllErased(r1, Ascending(NamesSpentBy(r1, nfs)), at, height);
  }

  lemma {:induction false} UpToAll(steps: seq<Step>, height: Height)
    requires forall s | s in steps :: s.height <= height
    ensures UpTo(steps, height) == steps
  {
    if steps != [] {
      UpToAll(steps[..|steps| - 1], height);
    }
  }

  /**
   Rewinding to `height` yields the same history, live records, live anchors,
   checkpoints and adoption mark as running only the steps at or below it.
   */
  lemma {:induction false} RewindIsPrefixReplay(net: Network, steps: seq<Step>, height: Height)
    requires Ordered(steps)
    ensures TruncateReg(Run(net, steps), height) == Run(net, UpTo(steps, height))
  {
    if steps == [] {
      assert TruncateReg(EMPTY_REG, height) == EMPTY_REG;
    } else {
      var rest, last := steps[..|steps| - 1], steps[|steps| - 1];
      if last.height <= height {
        assert forall s | s in steps :: s.height <= last.height;
        UpToAll(steps, height);
        RunKeepsInv(net, steps, last.height);
        TruncateAtTip(Run(net, steps), last.height, height);
      } else {
        ApplyErased(net, Run(net, rest), last, height);
        RewindIsPrefixReplay(net, rest, height);
      }
    }
  }

  lemma {:induction false} CutTwice(chain: seq<NameRecord>, high: Height, low: Height)
    requires low <= high
    ensures CutChain(CutChain(chain, high), low) == CutChain(chain, low)
  {
    if chain != [] && chain[|chain| - 1].confirmedHeight > high {
      CutTwice(chain[..|chain| - 1], high, low);
    }
  }

  /** Rewinding twice is rewinding once, to the lower height. */
  lemma TruncateTwice(r: Reg, high: Height, low: Height)
    requires low <= high
    ensures TruncateReg(TruncateReg(r, high), low) == TruncateReg(r, low)
  {
    TruncatePoolTwice(r.pool, high, low);
    forall n | n in r.history
      ensures CutChain(CutChain(r.history[n], high), low) == CutChain(r.history[n], low)
    {
      CutTwice(r.history[n], high, low);
    }
    assert CutHistory(CutHistory(r.history, high), low) == CutHistory(r.history, low);
  }

  lemma LifeCyclePrefix(chain: seq<NameRecord>, n: nat)
    requires LifeCycle(chain) && n <= |chain|
    ensures LifeCycle(chain[..n])
  {
    forall i | 0 <= i < n
      ensures FitsAt(chain[..n], i)
    {
      assert FitsAt(chain, i);
    }
  }

  lemma {:induction false} CutKeepsChain(chain: seq<NameRecord>, name: Name, tip: Height, high: Height)
    requires chain == [] || ChainOk(chain, name, tip)
    ensures CutChain(chain, high) == [] || ChainOk(CutChain(chain, high), name, high)
  {
    if chain != [] {
      var n := |chain| - 1;
      if chain[n].confirmedHeight > high {
        if n > 0 {
          LifeCyclePrefix(chain, n);
        }
        CutKeepsChain(chain[..n], name, tip, high);
      }
    }
  }

  /** A rewound registry satisfies the invariant of the height it was rewound to. */
  lemma TruncateKeepsRegInv(r: Reg, tip: Height, high: Height)
    requires RegInv(r, tip) && high <= tip
    ensures RegInv(TruncateReg(r, high), high)
  {
    TruncateKeepsInv(r.pool, tip, high);
    forall n | n in r.history
      ensures CutChain(r.history[n], high) == [] || ChainOk(CutChain(r.history[n], high), n, high)
    {
      CutKeepsChain(r.history[n], n, tip, high);
    }
  }

  /** A registry's life: blocks apply steps, and reorganisations rewind them. */
  datatype ChainEvent = Applied(step: Step) | Rewound(height: Height)

  function RunWithRewinds(net: Network, events: seq<ChainEvent>): Reg {
    if events == [] then EMPTY_REG
    else
      var r := RunWithRewinds(net, events[..|events| - 1]);
      match events[|events| - 1]
      case Applied(s) => Apply(net, r, s)
      case Rewound(h) => TruncateReg(r, h)
  }

  /** The steps still on the canonical chain. */
  function Surviving(events: seq<ChainEvent>): seq<Step> {
    if events == [] then []
    else
      var kept := Surviving(events[..|events| - 1]);
      match events[|events| - 1]
      case Applied(s) => kept + [s]
      case Rewound(h) => UpTo(kept, h)
  }

  /** Blocks are always applied on top of what survives. */
  ghost predicate ChainOrdered(events: seq<ChainEvent>) {
    events != [] ==> ChainOrdered(events[..|events| - 1]) && Ordered(Surviving(events))
  }

  /** However many reorganisations happened, only the surviving steps show. */
  lemma {:induction false} ReorganisationsLeaveNoTrace(net: Network, events: seq<ChainEvent>)
    requires ChainOrdered(events)
    ensures RunWithRewinds(net, events) == Run(net, Surviving(events))
  {
    if events != [] {
      var rest := events[..|events| - 1];
      ReorganisationsLeaveNoTrace(net, rest);
      match events[|events| - 1]
      case Applied(s) =>
        assert Surviving(events)[..|Surviving(events)| - 1] == Surviving(rest);
      case Rewound(h) =>
        assert rest == [] || Ordered(Surviving(rest));
        RewindIsPrefixReplay(net, Surviving(rest), h);
    }
  }

  // ---------------------------------------------------------------------------
  // Spent is dead
  // ---------------------------------------------------------------------------

  function SpentBy(s: Step): set<Nullifier> {
    if s.AdoptStep? then {} else ToSet(s.nfs)
  }

  /** The nullifiers a step may put into the registry. */
  function Introduced(s: Step): set<Nullifier> {
    match s
    case AdoptStep(_, nf) => {nf}
    case ClaimStep(_, _, _, nullifier, successor, _, _) =>
      {nullifier} + if successor.Some? then {successor.value} else {}
    case SuccessorStep(_, _, _, nullifier, _) => {nullifier}
    case FollowStep(_, _) => {}
  }

  function Spent(steps: seq<Step>): set<Nullifier> {
    if steps == [] then {} else Spent(steps[..|steps| - 1]) + SpentBy(steps[|steps| - 1])
  }

  /** A note's nullifier has not been revealed by the time the note appears. */
  ghost predicate FreshRun(steps: seq<Step>) {
    steps != [] ==> FreshRun(steps[..|steps| - 1]) && Introduced(steps[|steps| - 1]) !! Spent(steps)
  }

  ghost predicate NoAuthorityIn(r: Reg, spent: set<Nullifier>) {
    && r.pool.live !! spent
    && forall n | n in r.records :: r.records[n].nullifier !in spent
  }

  lemma {:induction false} OneLiveSpend(p: Pool, nfs: seq<Nullifier>)
    ensures |Retired(p, nfs)| <= CountLive(p, nfs)
    ensures CountLive(p, nfs) > 0 ==> Retired(p, nfs) != {}
  {
    if nfs == [] {
      assert Retired(p, nfs) == {};
    } else {
      var rest, last := nfs[..|nfs| - 1], nfs[|nfs| - 1];
      OneLiveSpend(p, rest);
      assert nfs == rest + [last];
      if last in p.live {
        assert Retired(p, nfs) == Retired(p, rest) + {last};
      } else {
        assert Retired(p, nfs) == Retired(p, rest);
      }
    }
  }

  lemma SingletonOf(s: set<Nullifier>) returns (x: Nullifier)
    requires |s| == 1
    ensures s == {x}
  {
    x :| x in s;
    assert |s - {x}| == 0;
  }

  lemma RejectedIsReleased(net: Network, r: Reg, note: NameNote, nullifier: Nullifier, successor: Option<Nullifier>,
                           nfs: seq<Nullifier>, height: Height, mtp: Timestamp, expiry: Height)
    requires note.ClaimNote? && !(ClaimAdmitted(net, r, note.name, nfs, expiry) && successor.Some?)
    ensures AcceptClaim(net, r, note, nullifier, successor, nfs, height, mtp, expiry)
      == (MarkReleased(r.(pool := RetireSpent(r.pool, nfs, None, height)), nfs, height), false)
  {
  }

  lemma RejectedClaim(net: Network, r: Reg, note: NameNote, nullifier: Nullifier, successor: Option<Nullifier>,
                      nfs: seq<Nullifier>, height: Height, mtp: Timestamp, expiry: Height)
    requires note.ClaimNote? && RegInv(r, height)
    requires !(ClaimAdmitted(net, r, note.name, nfs, expiry) && successor.Some?)
    ensures var (r', accepted) := AcceptClaim(net, r, note, nullifier, successor, nfs, height, mtp, expiry);
      && !accepted
      && r'.pool.live == r.pool.live - ToSet(nfs)
      && r'.records == r.records - NamesSpentBy(r, nfs)
  {
    RejectedIsReleased(net, r, note, nullifier, successor, nfs, height, mtp, expiry);
    FollowTakes(r, nfs, height);
  }

  /** Following the spends takes exactly the spent anchors and the spent names. */
  lemma FollowTakes(r: Reg, nfs: seq<Nullifier>, height: Height)
    requires RegInv(r, height)
    ensures var r' := MarkReleased(r.(pool := RetireSpent(r.pool, nfs, None, height)), nfs, height);
      r'.pool.live == r.pool.live - ToSet(nfs) && r'.records == r.records - NamesSpentBy(r, nfs)
  {
    var pool := RetireSpent(r.pool, nfs, None, height);
    var r1 := r.(pool := pool);
    RetireKeepsInv(r.pool, nfs, None, height, height);
    MarkReleasedKeepsInv(r1, nfs, height);
    assert NamesSpentBy(r1, nfs) == NamesSpentBy(r, nfs);
    RetireTakes(r.pool, nfs, height);
  }

  lemma RetireTakes(p: Pool, nfs: seq<Nullifier>, height: Height)
    ensures RetireSpent(p, nfs, None, height).live == p.live - ToSet(nfs)
  {
    assert p.live - ToSet(nfs) == p.live - Retired(p, nfs);
  }

  lemma AcceptedClaim(net: Network, r: Reg, note: NameNote, nullifier: Nullifier, successor: Nullifier,
                      nfs: seq<Nullifier>, height: Height, mtp: Timestamp, expiry: Height) returns (anchor: Nullifier)
    requires note.ClaimNote? && ClaimAdmitted(net, r, note.name, nfs, expiry)
    ensures anchor in nfs && anchor in r.pool.live && Retired(r.pool, nfs) == {anchor}
    ensures var (r', accepted) := AcceptClaim(net, r, note, nullifier, Some(successor), nfs, height, mtp, expiry);
      && accepted
      && r'.pool.live == r.pool.live - {anchor} + {successor}
      && r'.records == r.records[note.name := Create(net, note, nullifier, height, mtp)]
  {
    OneLiveSpend(r.pool, nfs);
    assert |Retired(r.pool, nfs)| != 0;
    anchor := SingletonOf(Retired(r.pool, nfs));
    assert anchor in Retired(r.pool, nfs);
  }

  lemma SuccessorKillsSpent(net: Network, r: Reg, s: Step, spent: set<Nullifier>)
    requires s.SuccessorStep? && RegInv(r, s.height) && PredecessorSpent(r, s.note.name, s.nfs).Some?
    requires NoAuthorityIn(r, spent) && Introduced(s) !! spent + SpentBy(s)
    ensures NoAuthorityIn(Apply(net, r, s), spent + SpentBy(s))
  {
    var SuccessorStep(at, mtp, note, nullifier, nfs) := s;
    SuccessorChanges(net, r, s);
    assert forall nf | nf in nfs :: nf in r.pool.live ==> nf in Retired(r.pool, nfs);
    assert forall n | n in r.records && n != note.name :: n !in NamesSpentBy(r, nfs);
  }

  /** A transaction that spent its own predecessor touches its name's record only. */
  lemma SuccessorChanges(net: Network, r: Reg, s: Step)
    requires s.SuccessorStep? && PredecessorSpent(r, s.note.name, s.nfs).Some?
    ensures Apply(net, r, s).pool == r.pool
    ensures forall n | n in Apply(net, r, s).records ::
      if n == s.note.name then Apply(net, r, s).records[n].nullifier == s.nullifier
      else n in r.records && Apply(net, r, s).records[n] == r.records[n]
  {
  }

  lemma ApplyKillsSpent(net: Network, r: Reg, s: Step, spent: set<Nullifier>)
    requires RegInv(r, s.height)
    requires NoAuthorityIn(r, spent) && Introduced(s) !! spent + SpentBy(s)
    ensures NoAuthorityIn(Apply(net, r, s), spent + SpentBy(s))
  {
    match s
    case AdoptStep(_, _) =>
    case ClaimStep(at, mtp, note, nullifier, successor, nfs, expiry) =>
      ClaimKillsSpent(net, r, s, spent);
    case SuccessorStep(at, mtp, note, nullifier, nfs) =>
      match PredecessorSpent(r, note.name, nfs) {
        case None => FollowKillsSpent(r, nfs, at, spent);
        case Some(rec) => SuccessorKillsSpent(net, r, s, spent);
      }
    case FollowStep(at, nfs) => FollowKillsSpent(r, nfs, at, spent);
  }

  lemma ClaimKillsSpent(net: Network, r: Reg, s: Step, spent: set<Nullifier>)
    requires s.ClaimStep? && RegInv(r, s.height)
    requires NoAuthorityIn(r, spent) && Introduced(s) !! spent + SpentBy(s)
    ensures NoAuthorityIn(Apply(net, r, s), spent + SpentBy(s))
  {
    var ClaimStep(at, mtp, note, nullifier, successor, nfs, expiry) := s;
    assert forall n | n in r.records && r.records[n].nullifier in nfs :: n in NamesSpentBy(r, nfs);
    if ClaimAdmitted(net, r, note.name, nfs, expiry) && successor.Some? {
      var anchor := AcceptedClaim(net, r, note, nullifier, successor.value, nfs, at, mtp, expiry);
      assert forall nf | nf in nfs && nf in r.pool.live :: nf in Retired(r.pool, nfs);
    } else {
      RejectedClaim(net, r, note, nullifier, successor, nfs, at, mtp, expiry);
    }
  }

  lemma FollowKillsSpent(r: Reg, nfs: seq<Nullifier>, at: Height, spent: set<Nullifier>)
    requires RegInv(r, at) && NoAuthorityIn(r, spent)
    ensures NoAuthorityIn(FollowSpends(r, nfs, at), spent + ToSet(nfs))
  {
    RetireKeepsInv(r.pool, nfs, None, at, at);
    var r1 := r.(pool := RetireSpent(r.pool, nfs, None, at));
    MarkReleasedKeepsInv(r1, nfs, at);
    assert forall n | n in r.records && r.records[n].nullifier in nfs :: n in NamesSpentBy(r1, nfs);
  }

  /** No live name and no live anchor carries a nullifier any applied transaction spent. */
  lemma {:induction false} SpentIsDead(net: Network, steps: seq<Step>)
    requires Ordered(steps) && FreshRun(steps)
    ensures NoAuthorityIn(Run(net, steps), Spent(steps))
  {
    if steps != [] {
      var rest, last := steps[..|steps| - 1], steps[|steps| - 1];
      assert forall s | s in rest :: s.height <= last.height;
      RunKeepsInv(net, rest, last.height);
      SpentIsDead(net, rest);
      ApplyKillsSpent(net, Run(net, rest), last, Spent(rest));
    }
  }

  // ---------------------------------------------------------------------------
  // Anchor authority is conserved
  // ---------------------------------------------------------------------------

  /** An accepted claim swaps the one anchor it spent for its successor; a rejected one seats nobody. */
  lemma ClaimSwapsOneAnchor(net: Network, r: Reg, note: NameNote, nullifier: Nullifier, successor: Option<Nullifier>,
                            nfs: seq<Nullifier>, height: Height, mtp: Timestamp, expiry: Height)
    requires note.ClaimNote? && RegInv(r, height)
    ensures var (r', accepted) := AcceptClaim(net, r, note, nullifier, successor, nfs, height, mtp, expiry);
      if accepted then
        && successor.Some?
        && (exists anchor :: anchor in nfs && anchor in r.pool.live &&
              r'.pool.live == r.pool.live - {anchor} + {successor.value})
        && (successor.value !in r.pool.live ==> |r'.pool.live| == |r.pool.live|)
        && note.name in r'.records && r'.records[note.name].nullifier == nullifier
      else
        && r'.pool.live == r.pool.live - ToSet(nfs)
        && r'.records == r.records - NamesSpentBy(r, nfs)
  {
    if ClaimAdmitted(net, r, note.name, nfs, expiry) && successor.Some? {
      var anchor := AcceptedClaim(net, r, note, nullifier, successor.value, nfs, height, mtp, expiry);
      SeatingKeepsSize(r.pool.live, {anchor}, successor.value);
    } else {
      RejectedClaim(net, r, note, nullifier, successor, nfs, height, mtp, expiry);
    }
  }

  /** The height of the step at which a run's live set first reached standing size. */
  function FirstFull(net: Network, steps: seq<Step>): Option<Height> {
    if steps == [] then None
    else
      var before := FirstFull(net, steps[..|steps| - 1]);
      if before.Some? then before
      else if |Run(net, steps).pool.live| == ANCHOR_POOL_SIZE then Some(steps[|steps| - 1].height)
      else None
  }

  lemma ApplyPool(net: Network, r: Reg, s: Step)
    requires RegInv(r, s.height)
    ensures Apply(net, r, s).pool.established ==
      if r.pool.established.Some? then r.pool.established
      else if |Apply(net, r, s).pool.live| == ANCHOR_POOL_SIZE then Some(s.height) else None
    ensures r.pool.established.Some? ==> |Apply(net, r, s).pool.live| <= |r.pool.live|
  {
    match s
    case AdoptStep(_, _) =>
    case ClaimStep(at, mtp, note, nullifier, successor, nfs, expiry) =>
      var seated := if ClaimAdmitted(net, r, note.name, nfs, expiry) then successor else None;
      RetireKeepsInv(r.pool, nfs, seated, at, at);
      MarkReleasedKeepsInv(r.(pool := RetireSpent(r.pool, nfs, seated, at)), nfs, at);
    case SuccessorStep(at, mtp, note, nullifier, nfs) =>
      RetireKeepsInv(r.pool, nfs, None, at, at);
      MarkReleasedKeepsInv(r.(pool := RetireSpent(r.pool, nfs, None, at)), nfs, at);
    case FollowStep(at, nfs) =>
      RetireKeepsInv(r.pool, nfs, None, at, at);
      MarkReleasedKeepsInv(r.(pool := RetireSpent(r.pool, nfs, None, at)), nfs, at);
  }

  /**
   The live set never exceeds standing size, adoption closes exactly when it
   first reaches it, and from then on no step enlarges it.
   */
  lemma {:induction false} AuthorityIsConserved(net: Network, steps: seq<Step>)
    requires Ordered(steps)
    ensures |Run(net, steps).pool.live| <= ANCHOR_POOL_SIZE
    ensures Run(net, steps).pool.established == FirstFull(net, steps)
    ensures steps != [] && FirstFull(net, steps[..|steps| - 1]).Some? ==>
      |Run(net, steps).pool.live| <= |Run(net, steps[..|steps| - 1]).pool.live|
  {
    if steps != [] {
      var rest, last := steps[..|steps| - 1], steps[|steps| - 1];
      assert forall s | s in steps :: s.height <= last.height;
      RunKeepsInv(net, steps, last.height);
      RunKeepsInv(net, rest, last.height);
      AuthorityIsConserved(net, rest);
      ApplyPool(net, Run(net, rest), last);
    }
  }

  // ---------------------------------------------------------------------------
  // The release window
  // ---------------------------------------------------------------------------

  /**
   With an expiry delta that never shrinks, a claim carrying the standard expiry
   for its target passes the release check iff it targets a height above the release.
   */
  lemma StandardClaimPassesIffLater(net: Network, r: Reg, name: Name, target: Height)
    requires forall a, b | a <= b :: net.expiryDelta(a) <= net.expiryDelta(b)
    requires RecordHistory(r, name) != []
    requires RecordHistory(r, name)[|RecordHistory(r, name)| - 1].action.Release?
    ensures var released := RecordHistory(r, name)[|RecordHistory(r, name)| - 1].confirmedHeight;
      !BuiltBeforeRelease(net, r, name, target + net.expiryDelta(target)) <==> target > released
  {
    var released := RecordHistory(r, name)[|RecordHistory(r, name)| - 1].confirmedHeight;
    if target > released {
      assert net.expiryDelta(released) <= net.expiryDelta(target);
    } else {
      assert net.expiryDelta(target) <= net.expiryDelta(released);
    }
  }
}
