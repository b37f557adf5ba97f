/** What the confirmation pass makes of one scanned transaction, from what the transaction shows. */
module BlockLaws {
  import opened Basics
  import opened NameNotes
  import opened AnchorPools
  import opened Registries
  import opened RegistryLaws
  import opened BlockPasses
  import R = RegistryRuns

  // ---------------------------------------------------------------------------
  // The ceremony
  // ---------------------------------------------------------------------------

  /** The positions of zero-valued outputs whose nullifier the scanner knows. */
  function Anchoring(outputs: seq<RegistryOutput>): set<nat> {
    set i: nat | i < |outputs| && outputs[i].value == 0 && outputs[i].nf.Some?
  }

  lemma {:induction false} ZeroValuedCount(outputs: seq<RegistryOutput>)
    ensures |ZeroValued(outputs)| == |Anchoring(outputs)|
    ensures forall nf :: nf in ZeroValued(outputs) <==> exists i :: i in Anchoring(outputs) && outputs[i].nf == Some(nf)
  {
    if outputs != [] {
      var n := |outputs| - 1;
      ZeroValuedCount(outputs[..n]);
      var rest := Anchoring(outputs[..n]);
      assert forall i :: i in rest ==> outputs[..n][i] == outputs[i];
      if outputs[n].value == 0 && outputs[n].nf.Some? {
        assert Anchoring(outputs) == rest + {n};
      } else {
        assert Anchoring(outputs) == rest;
      }
      forall nf
        ensures nf in ZeroValued(outputs) <==> exists i :: i in Anchoring(outputs) && outputs[i].nf == Some(nf)
      {
        if i :| i in rest && outputs[..n][i].nf == Some(nf) { assert i in Anchoring(outputs); }
      }
    } else {
      assert Anchoring(outputs) == {};
    }
  }

  /** A transaction is the ceremony iff it carries no Name Note and exactly forty zero-valued outputs of known nullifier. */
  lemma CeremonyIff(tx: ScannedTx)
    ensures IsCeremony(tx) <==> tx.notes == [] && |Anchoring(tx.outputs)| == 40
  {
    ZeroValuedCount(tx.outputs);
  }

  // ---------------------------------------------------------------------------
  // Every other transaction
  // ---------------------------------------------------------------------------

  /**
   One note is offered to its own law with the nullifiers the transaction reveals; a
   claim's successor is the zero-valued output that is its only Registry output. None
   or several notes are only followed.
   */
  ghost predicate TxRuled(net: Network, r: Reg, tx: ScannedTx, height: Height, mtp: Timestamp, after: Reg, accepted: bool) {
    if |tx.notes| != 1 then
      !accepted && Followed(r, tx.nfs, height, after)
    else if !tx.notes[0].0.ClaimNote? then
      SuccessorRuled(net, r, tx.notes[0].0, tx.notes[0].1, tx.nfs, height, mtp, after, accepted)
    else
      && (forall nf: Nullifier | tx.outputs == [RegistryOutput(0, Some(nf))] ::
            ClaimRuled(net, r, tx.notes[0].0, tx.notes[0].1, Some(nf), tx.nfs, height, mtp, tx.expiry, after, accepted))
      && ((forall nf: Nullifier :: tx.outputs != [RegistryOutput(0, Some(nf))]) ==>
            ClaimRuled(net, r, tx.notes[0].0, tx.notes[0].1, None, tx.nfs, height, mtp, tx.expiry, after, accepted))
  }

  lemma SuccessorIff(outputs: seq<RegistryOutput>, nf: Nullifier)
    ensures SuccessorOf(outputs) == Some(nf) <==> outputs == [RegistryOutput(0, Some(nf))]
  {
  }

  lemma OneStep(net: Network, r: Reg, s: R.Step)
    ensures R.ApplyAll(net, r, [s]) == R.Apply(net, r, s)
  {
    assert [s][..0] == [];
  }

  /** Over every lawful registry, a transaction other than the ceremony leaves exactly what is written out. */
  lemma TxLaw(net: Network, r: Reg, tx: ScannedTx, height: Height, mtp: Timestamp, after: Reg, accepted: bool)
    requires RegInv(r, height) && !(tx.notes == [] && |Anchoring(tx.outputs)| == 40)
    ensures TxRuled(net, r, tx, height, mtp, after, accepted) <==>
      after == R.ApplyAll(net, r, StepsOfTx(tx, height, mtp)) && accepted == AcceptsTx(net, r, tx, height, mtp)
  {
    CeremonyIff(tx);
    var ruling := Ruling(tx, height, mtp);
    assert StepsOfTx(tx, height, mtp) == [ruling];
    OneStep(net, r, ruling);
    if |tx.notes| != 1 {
      FollowLaw(r, tx.nfs, height);
      if Followed(r, tx.nfs, height, after) { FollowedIsOne(r, tx.nfs, height, after, FollowSpends(r, tx.nfs, height)); }
    } else if !tx.notes[0].0.ClaimNote? {
      SuccessorLaw(net, r, tx.notes[0].0, tx.notes[0].1, tx.nfs, height, mtp, after, accepted);
    } else {
      var successor := SuccessorOf(tx.outputs);
      forall nf: Nullifier ensures successor == Some(nf) <==> tx.outputs == [RegistryOutput(0, Some(nf))] {
        SuccessorIff(tx.outputs, nf);
      }
      ClaimLaw(net, r, tx.notes[0].0, tx.notes[0].1, successor, tx.nfs, height, mtp, tx.expiry, after, accepted);
      if successor.Some? { assert tx.outputs == [RegistryOutput(0, Some(successor.value))]; }
    }
  }

  // ---------------------------------------------------------------------------
  // Whole blocks
  // ---------------------------------------------------------------------------

  /** A block's transactions are ruled one after another: a longer block rules its last one on what the others left. */
  lemma BlockInOrder(net: Network, r: Reg, height: Height, mtp: Timestamp, txs: seq<ScannedTx>, tx: ScannedTx)
    ensures R.ApplyAll(net, r, StepsOfTxs([], height, mtp)) == r
    ensures R.ApplyAll(net, r, StepsOfTxs(txs + [tx], height, mtp)) ==
      R.ApplyAll(net, R.ApplyAll(net, r, StepsOfTxs(txs, height, mtp)), StepsOfTx(tx, height, mtp))
  {
    var more := txs + [tx];
    assert more[..|more| - 1] == txs && more[|more| - 1] == tx;
    assert StepsOfTxs(more, height, mtp) == StepsOfTxs(txs, height, mtp) + StepsOfTx(tx, height, mtp);
    ApplyAllConcat(net, r, StepsOfTxs(txs, height, mtp), StepsOfTx(tx, height, mtp));
  }

  /** From the birthday on every transaction is ruled, and before it none. */
  lemma BirthdayRules(b: ScannedChainBlock, birthday: Height)
    ensures StepsOf(b, birthday) == StepsOfTxs(if b.height < birthday then [] else b.txs, b.height, b.mtp)
  {
  }

  /** The pass returns, in rising order, exactly the transactions whose note was accepted where it stood. */
  lemma {:induction false} AcceptedIff(net: Network, r: Reg, txs: seq<ScannedTx>, height: Height, mtp: Timestamp)
    ensures var accepted := AcceptedIn(net, r, txs, height, mtp);
      && (forall i: nat :: i in accepted <==> i < |txs| && AcceptedAt(net, r, txs, height, mtp, i))
      && forall i, j | 0 <= i < j < |accepted| :: accepted[i] < accepted[j]
  {
    if txs != [] {
      var n := |txs| - 1;
      AcceptedIff(net, r, txs[..n], height, mtp);
      forall i: nat | i < n ensures AcceptedAt(net, r, txs[..n], height, mtp, i) <==> AcceptedAt(net, r, txs, height, mtp, i) {
        assert txs[..n][..i] == txs[..i] && txs[..n][i] == txs[i];
      }
      AcceptedLast(net, r, txs, height, mtp);
      var before, accepted := AcceptedIn(net, r, txs[..n], height, mtp), AcceptedIn(net, r, txs, height, mtp);
      forall i | 0 <= i < |before| ensures before[i] < n {
        assert before[i] in before;
      }
      forall i: nat ensures i in accepted <==> i in before || (i == n && AcceptedAt(net, r, txs, height, mtp, n)) {}
    }
  }

  /** The law accepts the note of transaction `i` where it stands in the block. */
  ghost predicate AcceptedAt(net: Network, r: Reg, txs: seq<ScannedTx>, height: Height, mtp: Timestamp, i: nat)
    requires i < |txs|
  {
    AcceptsTx(net, R.ApplyAll(net, r, StepsOfTxs(txs[..i], height, mtp)), txs[i], height, mtp)
  }

  lemma AcceptedLast(net: Network, r: Reg, txs: seq<ScannedTx>, height: Height, mtp: Timestamp)
    requires txs != []
    ensures var n := |txs| - 1;
      AcceptedIn(net, r, txs, height, mtp) ==
        AcceptedIn(net, r, txs[..n], height, mtp) + if AcceptedAt(net, r, txs, height, mtp, n) then [n] else []
  {
  }
}
