/**
 The confirmation pass of one block: which registry law each of its transactions
 is offered to, and what whole chains of such blocks make of spent authority.
 */
module BlockPasses {
  import opened Basics
  import opened NameNotes
  import opened AnchorPools
  import opened Registries
  import opened RegistryRuns
  import opened RegistryObjects

  /** A note sent to the Registry account, with its nullifier when the scanner knows it. */
  datatype RegistryOutput = RegistryOutput(value: nat, nf: Option<Nullifier>)

  /** A scanned transaction: the nullifiers it reveals, its Registry outputs and its decrypted Name Notes in action order. */
  datatype ScannedTx = ScannedTx(nfs: seq<Nullifier>, outputs: seq<RegistryOutput>, notes: seq<(NameNote, Nullifier)>,
                                 expiry: Height)

  datatype ScannedChainBlock = ScannedChainBlock(height: Height, mtp: Timestamp, txs: seq<ScannedTx>)

  // ---------------------------------------------------------------------------
  // What one transaction asks
  // ---------------------------------------------------------------------------

  function ZeroValued(outputs: seq<RegistryOutput>): seq<Nullifier> {
    if outputs == [] then []
    else
      var rest, last := ZeroValued(outputs[..|outputs| - 1]), outputs[|outputs| - 1];
      if last.value == 0 && last.nf.Some? then rest + [last.nf.value] else rest
  }

  /** The whole standing set of zero-value outputs and no Name Note. */
  predicate IsCeremony(tx: ScannedTx) {
    |ZeroValued(tx.outputs)| == ANCHOR_POOL_SIZE && tx.notes == []
  }

  /** A backed claim creates exactly one zero-value Registry output: its successor anchor. */
  function SuccessorOf(outputs: seq<RegistryOutput>): Option<Nullifier> {
    if |outputs| == 1 && outputs[0].value == 0 then outputs[0].nf else None
  }

  function Adoptions(nfs: seq<Nullifier>, height: Height): seq<Step> {
    seq(|nfs|, i requires 0 <= i < |nfs| => AdoptStep(height, nfs[i]))
  }

  /** One Name Note is offered to its law; none, or several, only spend. */
  function Ruling(tx: ScannedTx, height: Height, mtp: Timestamp): Step {
    if |tx.notes| != 1 then FollowStep(height, tx.nfs)
    else
      var (note, nullifier) := tx.notes[0];
      if note.ClaimNote? then ClaimStep(height, mtp, note, nullifier, SuccessorOf(tx.outputs), tx.nfs, tx.expiry)
      else SuccessorStep(height, mtp, note, nullifier, tx.nfs)
  }

  function StepsOfTx(tx: ScannedTx, height: Height, mtp: Timestamp): seq<Step> {
    (if IsCeremony(tx) then Adoptions(ZeroValued(tx.outputs), height) else []) + [Ruling(tx, height, mtp)]
  }

  function StepsOfTxs(txs: seq<ScannedTx>, height: Height, mtp: Timestamp): seq<Step> {
    if txs == [] then [] else StepsOfTxs(txs[..|txs| - 1], height, mtp) + StepsOfTx(txs[|txs| - 1], height, mtp)
  }

  /** Before the birthday the registry sees nothing. */
  function StepsOf(b: ScannedChainBlock, birthday: Height): seq<Step> {
    if b.height < birthday then [] else StepsOfTxs(b.txs, b.height, b.mtp)
  }

  function StepsOfChain(chain: seq<ScannedChainBlock>, birthday: Height): seq<Step> {
    if chain == [] then [] else StepsOfChain(chain[..|chain| - 1], birthday) + StepsOf(chain[|chain| - 1], birthday)
  }

  // ---------------------------------------------------------------------------
  // Every spend reaches the registry
  // ---------------------------------------------------------------------------

  /** The nullifiers some transactions reveal. */
  function Revealed(txs: seq<ScannedTx>): set<Nullifier> {
    if txs == [] then {} else Revealed(txs[..|txs| - 1]) + ToSet(txs[|txs| - 1].nfs)
  }

  /** The nullifiers transactions at or after the birthday reveal. */
  function RevealedBy(chain: seq<ScannedChainBlock>, birthday: Height): set<Nullifier> {
    if chain == [] then {}
    else
      var rest, last := RevealedBy(chain[..|chain| - 1], birthday), chain[|chain| - 1];
      if last.height < birthday then rest else rest + Revealed(last.txs)
  }

  lemma {:induction false} SpentConcat(a: seq<Step>, b: seq<Step>)
    ensures Spent(a + b) == Spent(a) + Spent(b)
  {
    if b == [] {
      assert a + b == a;
    } else {
      assert (a + b)[..|a| + |b| - 1] == a + b[..|b| - 1];
      SpentConcat(a, b[..|b| - 1]);
    }
  }

  lemma {:induction false} AdoptionsSpendNothing(nfs: seq<Nullifier>, height: Height)
    ensures Spent(Adoptions(nfs, height)) == {}
  {
    if nfs != [] {
      assert Adoptions(nfs, height)[..|nfs| - 1] == Adoptions(nfs[..|nfs| - 1], height);
      AdoptionsSpendNothing(nfs[..|nfs| - 1], height);
    }
  }

  lemma TxSpends(tx: ScannedTx, height: Height, mtp: Timestamp)
    ensures Spent(StepsOfTx(tx, height, mtp)) == ToSet(tx.nfs)
  {
    var before := if IsCeremony(tx) then Adoptions(ZeroValued(tx.outputs), height) else [];
    AdoptionsSpendNothing(ZeroValued(tx.outputs), height);
    SpentConcat(before, [Ruling(tx, height, mtp)]);
    assert [Ruling(tx, height, mtp)][..0] == [];
    assert Spent([Ruling(tx, height, mtp)]) == {} + SpentBy(Ruling(tx, height, mtp));
  }

  lemma {:induction false} TxsSpend(txs: seq<ScannedTx>, height: Height, mtp: Timestamp)
    ensures Spent(StepsOfTxs(txs, height, mtp)) == Revealed(txs)
  {
    if txs != [] {
      var rest, last := txs[..|txs| - 1], txs[|txs| - 1];
      TxsSpend(rest, height, mtp);
      TxSpends(last, height, mtp);
      SpentConcat(StepsOfTxs(rest, height, mtp), StepsOfTx(last, height, mtp));
    }
  }

  /** Whatever a transaction carries and however it is ruled, the registry sees exactly the nullifiers it reveals. */
  lemma {:induction false} EverySpendIsSeen(chain: seq<ScannedChainBlock>, birthday: Height)
    ensures Spent(StepsOfChain(chain, birthday)) == RevealedBy(chain, birthday)
  {
    if chain != [] {
      var rest, last := chain[..|chain| - 1], chain[|chain| - 1];
      EverySpendIsSeen(rest, birthday);
      TxsSpend(last.txs, last.height, last.mtp);
      SpentConcat(StepsOfChain(rest, birthday), StepsOf(last, birthday));
    }
  }

  // ---------------------------------------------------------------------------
  // Chains of blocks
  // ---------------------------------------------------------------------------

  ghost predicate RisingChain(chain: seq<ScannedChainBlock>) {
    forall i, j | 0 <= i < j < |chain| :: chain[i].height < chain[j].height
  }

  lemma {:induction false} TxsAtHeight(txs: seq<ScannedTx>, height: Height, mtp: Timestamp)
    ensures forall s | s in StepsOfTxs(txs, height, mtp) :: s.height == height
  {
    if txs != [] { TxsAtHeight(txs[..|txs| - 1], height, mtp); }
  }

  lemma {:induction false} ChainIsOrdered(chain: seq<ScannedChainBlock>, birthday: Height)
    requires RisingChain(chain)
    ensures Ordered(StepsOfChain(chain, birthday))
    ensures forall s | s in StepsOfChain(chain, birthday) :: chain != [] && s.height <= chain[|chain| - 1].height
  {
    if chain != [] {
      var rest, last := chain[..|chain| - 1], chain[|chain| - 1];
      ChainIsOrdered(rest, birthday);
      TxsAtHeight(last.txs, last.height, last.mtp);
      var before, more := StepsOfChain(rest, birthday), StepsOf(last, birthday);
      forall s | s in before ensures s.height < last.height {
        assert rest[|rest| - 1].height < last.height;
      }
      OrderedConcat(before, more, last.height);
    }
  }

  lemma OrderedConcat(a: seq<Step>, b: seq<Step>, height: Height)
    requires Ordered(a) && (forall s | s in a :: s.height <= height) && forall s | s in b :: s.height == height
    ensures Ordered(a + b)
  {
    forall i, j | 0 <= i < j < |a + b| ensures (a + b)[i].height <= (a + b)[j].height {
      if i < |a| { assert a[i] in a; }
      if i >= |a| { assert b[i - |a|] in b; }
      if j >= |a| { assert b[j - |a|] in b; }
    }
  }

  /**
   Over a whole chain whose notes' nullifiers are fresh when the notes appear, no
   live name and no live anchor carries a nullifier that any transaction of the
   chain revealed.
   */
  lemma RevealedIsDead(net: Network, chain: seq<ScannedChainBlock>, birthday: Height)
    requires RisingChain(chain) && FreshRun(StepsOfChain(chain, birthday))
    ensures NoAuthorityIn(Run(net, StepsOfChain(chain, birthday)), RevealedBy(chain, birthday))
  {
    ChainIsOrdered(chain, birthday);
    SpentIsDead(net, StepsOfChain(chain, birthday));
    EverySpendIsSeen(chain, birthday);
  }

  // ---------------------------------------------------------------------------
  // The ceremony
  // ---------------------------------------------------------------------------

  ghost predicate Different(nfs: seq<Nullifier>) {
    forall i, j | 0 <= i < j < |nfs| :: nfs[i] != nfs[j]
  }

  lemma {:induction false} DifferentSize(nfs: seq<Nullifier>)
    requires Different(nfs)
    ensures |ToSet(nfs)| == |nfs|
  {
    if nfs != [] {
      var n := |nfs| - 1;
      DifferentSize(nfs[..n]);
      assert nfs == nfs[..n] + [nfs[n]];
      assert ToSet(nfs) == ToSet(nfs[..n]) + {nfs[n]};
    }
  }

  lemma {:induction false} AdoptsAll(net: Network, r: Reg, nfs: seq<Nullifier>, height: Height)
    requires r.pool.live == {} && r.pool.established.None? && Different(nfs) && |nfs| <= ANCHOR_POOL_SIZE
    ensures var after := ApplyAll(net, r, Adoptions(nfs, height));
      && after.pool.live == ToSet(nfs)
      && after.pool.established == (if |nfs| == ANCHOR_POOL_SIZE then Some(height) else None)
      && after.records == r.records && after.history == r.history
  {
    if nfs != [] {
      var n := |nfs| - 1;
      AdoptsAll(net, r, nfs[..n], height);
      DifferentSize(nfs[..n]);
      LastApart(nfs);
      AdoptionSteps(net, r, nfs, height);
      AdoptOne(ApplyAll(net, r, Adoptions(nfs[..n], height)).pool, height, nfs[n], n);
    }
  }

  lemma LastApart(nfs: seq<Nullifier>)
    requires nfs != [] && Different(nfs)
    ensures var n := |nfs| - 1; ToSet(nfs) == ToSet(nfs[..n]) + {nfs[n]} && nfs[n] !in ToSet(nfs[..n])
  {
    var n := |nfs| - 1;
    assert nfs == nfs[..n] + [nfs[n]];
  }

  lemma AdoptionSteps(net: Network, r: Reg, nfs: seq<Nullifier>, height: Height)
    requires nfs != []
    ensures var n := |nfs| - 1;
      ApplyAll(net, r, Adoptions(nfs, height)) == Apply(net, ApplyAll(net, r, Adoptions(nfs[..n], height)), AdoptStep(height, nfs[n]))
  {
    var steps := Adoptions(nfs, height);
    assert steps[..|nfs| - 1] == Adoptions(nfs[..|nfs| - 1], height);
  }

  lemma AdoptOne(p: Pool, height: Height, nf: Nullifier, n: nat)
    requires |p.live| == n < ANCHOR_POOL_SIZE && p.established.None? && nf !in p.live
    ensures Adopt(p, height, nf).live == p.live + {nf}
    ensures Adopt(p, height, nf).established == (if n + 1 == ANCHOR_POOL_SIZE then Some(height) else None)
  {
    assert |p.live + {nf}| == n + 1;
  }

  lemma LastStep(net: Network, r: Reg, steps: seq<Step>, rest: seq<Step>, last: Step)
    requires steps == rest + [last]
    ensures ApplyAll(net, r, steps) == Apply(net, ApplyAll(net, r, rest), last)
  {
    assert steps[..|steps| - 1] == rest;
  }

  lemma {:induction false} ApplyAllConcat(net: Network, r: Reg, a: seq<Step>, b: seq<Step>)
    ensures ApplyAll(net, r, a + b) == ApplyAll(net, ApplyAll(net, r, a), b)
  {
    if b == [] {
      assert a + b == a;
    } else {
      var rest, last := b[..|b| - 1], b[|b| - 1];
      assert b == rest + [last] && a + b == (a + rest) + [last];
      LastStep(net, r, a + b, a + rest, last);
      LastStep(net, ApplyAll(net, r, a), b, rest, last);
      ApplyAllConcat(net, r, a, rest);
    }
  }

  /**
   One ceremony fills an empty pool and closes adoption: the live anchors are its
   outputs, less any it spends itself, and no later output joins without a claim.
   */
  lemma CeremonyFillsThePool(net: Network, r: Reg, tx: ScannedTx, height: Height, mtp: Timestamp)
    requires r.pool.live == {} && r.pool.established.None? && IsCeremony(tx) && Different(ZeroValued(tx.outputs))
    ensures var after := ApplyAll(net, r, StepsOfTx(tx, height, mtp));
      && after.pool.live == ToSet(ZeroValued(tx.outputs)) - ToSet(tx.nfs)
      && after.pool.established == Some(height)
      && forall at, nf :: Adopt(after.pool, at, nf) == after.pool
  {
    var nfs := ZeroValued(tx.outputs);
    AdoptsAll(net, r, nfs, height);
    var filled := ApplyAll(net, r, Adoptions(nfs, height));
    var ruling := Ruling(tx, height, mtp);
    ApplyAllConcat(net, r, Adoptions(nfs, height), [ruling]);
    assert [ruling][..0] == [] && ApplyAll(net, filled, [ruling]) == Apply(net, filled, ruling);
    FollowedPool(filled, tx.nfs, height);
  }

  lemma FollowedPool(r: Reg, nfs: seq<Nullifier>, height: Height)
    ensures FollowSpends(r, nfs, height).pool.live == r.pool.live - ToSet(nfs)
    ensures FollowSpends(r, nfs, height).pool.established == r.pool.established
  {
    ReleasingKeepsPool(r.(pool := RetireSpent(r.pool, nfs, None, height)),
                       Ascending(NamesSpentBy(r.(pool := RetireSpent(r.pool, nfs, None, height)), nfs)), height);
    assert r.pool.live - Retired(r.pool, nfs) == r.pool.live - ToSet(nfs);
  }

  lemma {:induction false} ReleasingKeepsPool(r: Reg, names: seq<Name>, height: Height)
    ensures ReleaseAll(r, names, height).pool == r.pool
  {
    if names != [] { ReleasingKeepsPool(r, names[..|names| - 1], height); }
  }

  // ---------------------------------------------------------------------------
  // The pass itself
  // ---------------------------------------------------------------------------

  /** Whether the law accepts the one note of a transaction. */
  function Accepts(net: Network, r: Reg, s: Step): bool {
    match s
    case ClaimStep(height, mtp, note, nullifier, successor, nfs, expiry) =>
      AcceptClaim(net, r, note, nullifier, successor, nfs, height, mtp, expiry).1
    case SuccessorStep(height, mtp, note, nullifier, nfs) => AcceptSuccessor(net, r, note, nullifier, nfs, height, mtp).1
    case _ => false
  }

  function AcceptedIn(net: Network, r: Reg, txs: seq<ScannedTx>, height: Height, mtp: Timestamp): seq<nat> {
    if txs == [] then []
    else
      var rest, last := txs[..|txs| - 1], txs[|txs| - 1];
      var before := ApplyAll(net, r, StepsOfTxs(rest, height, mtp));
      AcceptedIn(net, r, rest, height, mtp) + (if AcceptsTx(net, before, last, height, mtp) then [|rest|] else [])
  }

  function AcceptsTx(net: Network, r: Reg, tx: ScannedTx, height: Height, mtp: Timestamp): bool {
    Accepts(net, if IsCeremony(tx) then ApplyAll(net, r, Adoptions(ZeroValued(tx.outputs), height)) else r,
            Ruling(tx, height, mtp))
  }

  lemma NextTx(net: Network, r: Reg, txs: seq<ScannedTx>, i: nat, height: Height, mtp: Timestamp)
    requires i < |txs|
    ensures var before := ApplyAll(net, r, StepsOfTxs(txs[..i], height, mtp));
      && ApplyAll(net, r, StepsOfTxs(txs[..i + 1], height, mtp)) == ApplyAll(net, before, StepsOfTx(txs[i], height, mtp))
      && AcceptedIn(net, r, txs[..i + 1], height, mtp) ==
           AcceptedIn(net, r, txs[..i], height, mtp) + (if AcceptsTx(net, before, txs[i], height, mtp) then [i] else [])
  {
    assert txs[..i + 1][..i] == txs[..i];
    ApplyAllConcat(net, r, StepsOfTxs(txs[..i], height, mtp), StepsOfTx(txs[i], height, mtp));
  }

  method AdoptCeremony(registry: Registry, net: Network, nfs: seq<Nullifier>, height: Height)
    modifies registry.anchors
    ensures registry.View() == ApplyAll(net, old(registry.View()), Adoptions(nfs, height))
  {
    ghost var steps := Adoptions(nfs, height);
    for i := 0 to |nfs|
      invariant registry.View() == ApplyAll(net, old(registry.View()), steps[..i])
    {
      registry.anchors.AdoptAnchor(height, nfs[i]);
      assert steps[..i + 1][..i] == steps[..i];
    }
    assert steps[..|nfs|] == steps;
  }

  method Rule(registry: Registry, net: Network, tx: ScannedTx, height: Height, mtp: Timestamp) returns (accepted: bool)
    modifies registry`records, registry`history, registry.anchors
    ensures registry.View() == Apply(net, old(registry.View()), Ruling(tx, height, mtp))
    ensures accepted == Accepts(net, old(registry.View()), Ruling(tx, height, mtp))
  {
    if |tx.notes| != 1 {
      registry.Follow(tx.nfs, height);
      return false;
    }
    var (note, nullifier) := tx.notes[0];
    if note.ClaimNote? {
      var successor := SuccessorOf(tx.outputs);
      accepted := registry.OfferClaim(net, note, nullifier, successor, tx.nfs, height, mtp, tx.expiry);
    } else {
      accepted := registry.OfferSuccessor(net, note, nullifier, tx.nfs, height, mtp);
    }
  }

  method RuleTx(registry: Registry, net: Network, tx: ScannedTx, height: Height, mtp: Timestamp) returns (accepted: bool)
    modifies registry`records, registry`history, registry.anchors
    ensures registry.View() == ApplyAll(net, old(registry.View()), StepsOfTx(tx, height, mtp))
    ensures accepted == AcceptsTx(net, old(registry.View()), tx, height, mtp)
  {
    ghost var r := registry.View();
    ghost var ruling := Ruling(tx, height, mtp);
    ghost var before := if IsCeremony(tx) then Adoptions(ZeroValued(tx.outputs), height) else [];
    if IsCeremony(tx) {
      AdoptCeremony(registry, net, ZeroValued(tx.outputs), height);
    }
    accepted := Rule(registry, net, tx, height, mtp);
    ApplyAllConcat(net, r, before, [ruling]);
    assert [ruling][..0] == [];
  }

  /** The pass over a block's transactions, in block order: the registry takes their steps, and the accepted notes are returned. */
  method ConfirmBlock(registry: Registry, net: Network, b: ScannedChainBlock, birthday: Height) returns (accepted: seq<nat>)
    modifies registry`records, registry`history, registry.anchors
    ensures registry.View() == ApplyAll(net, old(registry.View()), StepsOf(b, birthday))
    ensures accepted == if b.height < birthday then [] else AcceptedIn(net, old(registry.View()), b.txs, b.height, b.mtp)
  {
    accepted := [];
    ghost var r := registry.View();
    if b.height < birthday {
      return;
    }
    for i := 0 to |b.txs|
      invariant registry.View() == ApplyAll(net, r, StepsOfTxs(b.txs[..i], b.height, b.mtp))
      invariant accepted == AcceptedIn(net, r, b.txs[..i], b.height, b.mtp)
    {
      NextTx(net, r, b.txs, i, b.height, b.mtp);
      var ok := RuleTx(registry, net, b.txs[i], b.height, b.mtp);
      if ok {
        accepted := accepted + [i];
      }
    }
    assert b.txs[..|b.txs|] == b.txs;
  }
}
