/** The wallet store as it works: maps updated in place, proved against `WalletTables`. */
module WalletObjects {
  import opened Basics
  import opened WalletTables
  import opened WalletLaws

  datatype Tip = Tip(height: Height, hash: nat)

  /** The batch follows `tip` without a gap and every block of it can be stored. */
  ghost predicate Extends(tip: Tip, bs: seq<ScannedBlock>) {
    && (forall i | 0 <= i < |bs| :: bs[i].height == tip.height + 1 + i)
    && (forall i, j | 0 <= i < |bs| && 0 <= j < |bs[i].txs| :: !bs[i].txs[j].orchard)
  }

  function PutAll(t: Tables, bs: seq<ScannedBlock>): Tables {
    if bs == [] then t else PutScanned(PutAll(t, bs[..|bs| - 1]), bs[|bs| - 1])
  }

  function RewindTarget(t: Tables, seed: Tip, max: Height): Option<Height> {
    if TruncationHeight(t, max).Some? then TruncationHeight(t, max)
    else if max >= seed.height then Some(seed.height)
    else None
  }

  function MinedOver(statuses: map<Txid, Status>, height: Height): set<Txid> {
    set x | x in statuses && statuses[x].Mined? && statuses[x].height > height
  }

  function WithoutTxids(notes: map<NoteId, Output>, gone: set<Txid>): map<NoteId, Output> {
    map id | id in notes && id.txid !in gone :: notes[id]
  }

  function WithoutOwners(keys: map<(Pool, Nullifier), NoteId>, gone: set<Txid>): map<(Pool, Nullifier), NoteId> {
    map k | k in keys && keys[k].txid !in gone :: keys[k]
  }

  /** A spend seen only in an orphaned block would block its note for ever; one built here stands until it expires. */
  function StandingSpends(spends: map<NoteId, Txid>, held: set<NoteId>, gone: set<Txid>): map<NoteId, Txid> {
    map id | id in spends && id in held && spends[id] !in gone :: spends[id]
  }

  function UnmineAll(statuses: map<Txid, Status>, height: Height): map<Txid, Status> {
    map x | x in statuses :: Unmine(statuses[x], height)
  }

  function UpToHeight(blocks: map<Height, nat>, height: Height): map<Height, nat> {
    map h | h in blocks && h <= height :: blocks[h]
  }

  /** What the decryption of a Name Note yields beside its nullifier. */
  datatype NameOutput = NameOutput(value: nat, position: nat, plain: nat, ephemeral: nat, memo: nat)

  /** The witness path as a function from leaf to root, the note's own leaf, and the tree's anchor, where they exist. */
  datatype LeafProof = LeafProof(path: Option<nat -> nat>, leaf: Option<nat>, anchor: Option<nat>)

  datatype NoteVerdict =
    | Stored | NotApplied | NotMinedThere | IndexTooLarge | ForeignNullifier
    | NoWitness | NoLeaf | NoAnchor | NotInTree | Divergent

  function HeldName(note: NameOutput, nf: Nullifier): Output {
    Output(REGISTRY_ACCOUNT, note.value, note.position, Some(nf), false, Some(External), note.plain, note.ephemeral, Some(note.memo))
  }

  /** Every stored field, memo and ephemeral key included, is the same. */
  predicate Repeats(held: Output, out: Output) {
    && held.position == out.position && held.nf == out.nf && held.plain == out.plain && held.value == out.value
    && held.ephemeral == out.ephemeral && held.account == out.account && held.scope == out.scope && held.memo == out.memo
  }

  ghost predicate InTree(proof: LeafProof) {
    && proof.path.Some? && proof.leaf.Some? && proof.anchor.Some?
    && proof.path.value(proof.leaf.value) == proof.anchor.value
  }

  /** The first objection to a Name Note, in the order they are raised. */
  ghost function NoteRuling(t: Tables, height: Height, id: NoteId, note: NameOutput, nf: Nullifier, proof: LeafProof): NoteVerdict {
    if height !in t.blocks then NotApplied
    else if id.txid !in t.statuses || t.statuses[id.txid] != Mined(height) then NotMinedThere
    else if id.index >= 0x1_0000 then IndexTooLarge
    else if (Ironwood, nf) in t.nullifiers && t.nullifiers[(Ironwood, nf)] != id then ForeignNullifier
    else if !InTree(proof) then
      if proof.path.None? then NoWitness else if proof.leaf.None? then NoLeaf else if proof.anchor.None? then NoAnchor else NotInTree
    else if id in t.notes && !Repeats(t.notes[id], HeldName(note, nf)) then Divergent
    else Stored
  }

  lemma OneBlock(t: Tables, bs: seq<ScannedBlock>)
    requires |bs| == 1
    ensures BlockApplied(t, bs[0], PutAll(t, bs))
  {
    assert bs[..0] == [];
    BlockLaw(t, bs[0]);
  }

  class WalletStore {
    const seed: Tip
    var blocks: map<Height, nat>
    var notes: map<NoteId, Output>
    var nullifiers: map<(Pool, Nullifier), NoteId>
    var spends: map<NoteId, Txid>
    var statuses: map<Txid, Status>
    var indices: map<Txid, nat>
    var transactions: map<Txid, Height>
    var trusted: set<Txid>
    var locks: map<NoteId, Lock>

    /** Only blocks above the boot origin are applied. */
    ghost predicate Valid()
      reads this
    {
      forall h | h in blocks :: h > seed.height
    }

    function View(): Tables
      reads this
    {
      Tables(blocks, notes, nullifiers, spends, statuses, indices, transactions, trusted, locks)
    }

    /** The applied position: the highest applied block, or the boot origin. */
    function Position(): Tip
      reads this
    {
      if blocks == map[] then seed else Tip(Greatest(blocks.Keys), blocks[Greatest(blocks.Keys)])
    }

    constructor (seed: Tip)
      ensures Valid() && View() == EMPTY_TABLES && this.seed == seed
    {
      this.seed := seed;
      blocks, notes, nullifiers, spends := map[], map[], map[], map[];
      statuses, indices, transactions, trusted, locks := map[], map[], map[], {}, map[];
    }

    method InsertOutput(txid: Txid, r: Received)
      modifies this`notes, this`nullifiers
      ensures View() == PutOutput(old(View()), txid, r)
    {
      var id := NoteId(txid, r.pool, r.index);
      notes := notes[id := r.out];
      if r.out.nf.Some? {
        nullifiers := nullifiers[(r.pool, r.out.nf.value) := id];
      }
    }

    method InsertTransaction(tx: WalletTx, height: Height)
      modifies this`notes, this`nullifiers, this`statuses, this`indices
      ensures View() == PutTx(old(View()), tx, height)
    {
      statuses := statuses[tx.txid := Mined(height)];
      indices := indices[tx.txid := tx.blockIndex];
      ghost var stamped := View();
      for i := 0 to |tx.outputs|
        invariant View() == PutOutputs(stamped, tx.txid, tx.outputs[..i])
      {
        InsertOutput(tx.txid, tx.outputs[i]);
        assert tx.outputs[..i + 1][..i] == tx.outputs[..i];
      }
      assert tx.outputs[..|tx.outputs|] == tx.outputs;
    }

    method MarkSpends(tx: WalletTx)
      modifies this`spends
      ensures View() == SpendKeys(old(View()), tx.txid, tx.spends)
    {
      ghost var before := View();
      for i := 0 to |tx.spends|
        invariant View() == SpendKeys(before, tx.txid, tx.spends[..i])
      {
        if tx.spends[i] in nullifiers {
          spends := spends[nullifiers[tx.spends[i]] := tx.txid];
        }
        assert tx.spends[..i + 1][..i] == tx.spends[..i];
      }
      assert tx.spends[..|tx.spends|] == tx.spends;
    }

    method InsertTransactions(b: ScannedBlock)
      modifies this`notes, this`nullifiers, this`statuses, this`indices
      ensures View() == PutTxs(old(View()), b.txs, b.height)
    {
      for i := 0 to |b.txs|
        invariant View() == PutTxs(old(View()), b.txs[..i], b.height)
      {
        InsertTransaction(b.txs[i], b.height);
        assert b.txs[..i + 1][..i] == b.txs[..i];
      }
      assert b.txs[..|b.txs|] == b.txs;
    }

    method MarkAllSpends(b: ScannedBlock)
      modifies this`spends
      ensures View() == SpendTxs(old(View()), b.txs)
    {
      for i := 0 to |b.txs|
        invariant View() == SpendTxs(old(View()), b.txs[..i])
      {
        MarkSpends(b.txs[i]);
        assert b.txs[..i + 1][..i] == b.txs[..i];
      }
      assert b.txs[..|b.txs|] == b.txs;
    }

    /** All outputs of the block are stored before any spend of it is matched. */
    method InsertBlock(b: ScannedBlock)
      modifies this
      ensures blocks == old(blocks)[b.height := b.hash]
      ensures View() == PutScanned(old(View()), b)
      ensures BlockApplied(old(View()), b, View())
    {
      BlockLaw(View(), b);
      InsertTransactions(b);
      MarkAllSpends(b);
      blocks := blocks[b.height := b.hash];
    }

    method FollowsTip(tip: Tip, bs: seq<ScannedBlock>) returns (ok: bool)
      ensures ok <==> bs == [] || (tip == Position() && Extends(tip, bs))
    {
      if bs == [] {
        return true;
      }
      if bs[0].height != tip.height + 1 {
        return false;
      }
      for i := 1 to |bs|
        invariant forall j | 0 <= j < i :: bs[j].height == tip.height + 1 + j
      {
        if bs[i].height != bs[i - 1].height + 1 {
          return false;
        }
      }
      if tip != Position() {
        return false;
      }
      for i := 0 to |bs|
        invariant forall j, k | 0 <= j < i && 0 <= k < |bs[j].txs| :: !bs[j].txs[k].orchard
      {
        for k := 0 to |bs[i].txs|
          invariant forall m | 0 <= m < k :: !bs[i].txs[m].orchard
        {
          if bs[i].txs[k].orchard {
            return false;
          }
        }
      }
      ok := true;
    }

    /** Applies a batch whole, or refuses it and changes nothing. */
    method PutBlocks(tip: Tip, bs: seq<ScannedBlock>) returns (ok: bool)
      requires Valid()
      modifies this
      ensures Valid()
      ensures ok <==> bs == [] || (tip == old(Position()) && Extends(tip, bs))
      ensures View() == if ok then PutAll(old(View()), bs) else old(View())
      ensures ok && |bs| == 1 ==> BlockApplied(old(View()), bs[0], View())
    {
      if |bs| == 1 { OneBlock(View(), bs); }
      ok := FollowsTip(tip, bs);
      if !ok {
        return;
      }
      ghost var before := View();
      for i := 0 to |bs|
        invariant Valid() && View() == PutAll(before, bs[..i])
      {
        InsertBlock(bs[i]);
        assert bs[..i + 1][..i] == bs[..i];
      }
      assert bs[..|bs|] == bs;
    }

    /**
     Stores a Name Note the scanner cannot see. It must be mined at an applied height,
     its nullifier name no other note, and its commitment, walked up the witness path,
     reach the anchor; a repeat must match what is stored field by field and is a no-op.
     */
    method StoreNameNote(height: Height, txid: Txid, index: nat, note: NameOutput, nf: Nullifier, proof: LeafProof)
      returns (verdict: NoteVerdict)
      modifies this`notes, this`nullifiers
      ensures verdict == NoteRuling(old(View()), height, NoteId(txid, Ironwood, index), note, nf, proof)
      ensures View() == if verdict == Stored && NoteId(txid, Ironwood, index) !in old(View()).notes
                        then StoreNames(old(View()), [(txid, Received(Ironwood, index, HeldName(note, nf)))]) else old(View())
      ensures verdict == Stored ==> Repeats(notes[NoteId(txid, Ironwood, index)], HeldName(note, nf))
      ensures var id := NoteId(txid, Ironwood, index);
        var held := Output(1, note.value, note.position, Some(nf), false, Some(External), note.plain, note.ephemeral, Some(note.memo));
        && (verdict == Stored <==>
              && height in old(blocks) && txid in old(statuses) && old(statuses)[txid] == Mined(height) && index < 65_536
              && ((Ironwood, nf) in old(nullifiers) ==> old(nullifiers)[(Ironwood, nf)] == id)
              && proof.path.Some? && proof.leaf.Some? && proof.anchor.Some?
              && proof.path.value(proof.leaf.value) == proof.anchor.value
              && (id in old(notes) ==> old(notes)[id].(change := false) == held))
        && (if verdict == Stored && id !in old(notes)
            then notes == old(notes)[id := held] && nullifiers == old(nullifiers)[(Ironwood, nf) := id]
            else notes == old(notes) && nullifiers == old(nullifiers))
    {
      var id := NoteId(txid, Ironwood, index);
      if height !in blocks {
        return NotApplied;
      }
      if txid !in statuses || statuses[txid] != Mined(height) {
        return NotMinedThere;
      }
      if index >= 0x1_0000 {
        return IndexTooLarge;
      }
      if (Ironwood, nf) in nullifiers && nullifiers[(Ironwood, nf)] != id {
        return ForeignNullifier;
      }
      if proof.path.None? {
        return NoWitness;
      }
      if proof.leaf.None? {
        return NoLeaf;
      }
      if proof.anchor.None? {
        return NoAnchor;
      }
      if proof.path.value(proof.leaf.value) != proof.anchor.value {
        return NotInTree;
      }
      var out := HeldName(note, nf);
      if id in notes {
        if !Repeats(notes[id], out) {
          return Divergent;
        }
        return Stored;
      }
      ghost var before := View();
      ghost var names := [(txid, Received(Ironwood, index, out))];
      assert names[..|names| - 1] == [] && StoreNames(before, names) == PutOutput(before, txid, names[0].1);
      notes := notes[id := out];
      nullifiers := nullifiers[(Ironwood, nf) := id];
      verdict := Stored;
    }

    method DropAppliedAbove(height: Height)
      modifies this
      ensures View() == DropAbove(old(View()), height)
    {
      ghost var t := View();
      var orphaned := MinedOver(statuses, height);
      notes := WithoutTxids(notes, orphaned);
      nullifiers := WithoutOwners(nullifiers, orphaned);
      indices := indices - orphaned;
      spends := StandingSpends(spends, notes.Keys, orphaned - transactions.Keys);
      statuses := UnmineAll(statuses, height);
      blocks := UpToHeight(blocks, height);
      locks := locks - (locks.Keys - notes.Keys);
      DropByOrphans(t, height, orphaned);
    }

    /**
     Rewinds to the deepest applied block at or below `max`, or to the boot origin
     when none is. `retained` holds the heights every tree still has a checkpoint for.
     No applied block at or below `max` is lost and none above it is kept.
     */
    method TruncateToHeight(max: Height, retained: set<Height>) returns (reached: Option<Height>)
      requires Valid()
      modifies this
      ensures Valid()
      ensures old(blocks) == map[] ==> reached == Some(max) && View() == old(View())
      ensures old(blocks) != map[] ==>
        reached == (var target := RewindTarget(old(View()), seed, max);
                    if target.Some? && target.value in retained then target else None)
      ensures View() == if old(blocks) != map[] && reached.Some? then DropAbove(old(View()), reached.value) else old(View())
      ensures reached.Some? ==> reached.value <= max && blocks == map h | h in old(blocks) && h <= max :: old(blocks)[h]
    {
      var target := TruncationHeight(View(), max);
      var hs := set h | h in blocks && h <= max;
      if target.None? {
        assert hs == {} && forall h | h in blocks :: h in hs || h > max;
        if blocks == map[] {
          return Some(max);
        }
        if max >= seed.height && seed.height in retained {
          DropAppliedAbove(seed.height);
          return Some(seed.height);
        }
        return None;
      }
      assert hs != {} && target.value == Greatest(hs);
      assert target.value in hs && forall h | h in hs :: h <= target.value;
      assert forall h | h in blocks && h <= max :: h in hs;
      if target.value !in retained {
        return None;
      }
      DropAppliedAbove(target.value);
      reached := target;
    }

    method StoreSent(txid: Txid, expiry: Height, keys: seq<(Pool, Nullifier)>)
      modifies this`transactions, this`statuses, this`spends, this`locks
      ensures View() == RecordSent(old(View()), txid, expiry, keys)
    {
      transactions := transactions[txid := expiry];
      if txid !in statuses {
        statuses := statuses[txid := NotInMainChain];
      }
      ghost var listed := View();
      for i := 0 to |keys|
        invariant View() == RecordSpends(listed, txid, keys[..i])
      {
        if keys[i] in nullifiers {
          spends := spends[nullifiers[keys[i]] := txid];
          locks := locks - {nullifiers[keys[i]]};
        }
        assert keys[..i + 1][..i] == keys[..i];
      }
      assert keys[..|keys|] == keys;
    }

    method Preflight(ids: seq<NoteId>, owner: Owner) returns (ok: bool)
      ensures ok <==> forall id | id in ids :: Lockable(View(), id, owner, Position().height)
    {
      var tip := Position().height;
      for i := 0 to |ids|
        invariant forall j | 0 <= j < i :: Lockable(View(), ids[j], owner, tip)
      {
        if ids[i] !in notes || (ids[i] in locks && locks[ids[i]].owner != owner && locks[ids[i]].expiry > tip) {
          assert ids[i] in ids && !Lockable(View(), ids[i], owner, tip);
          return false;
        }
      }
      ok := true;
    }

    /** Acquires every lock or none: the preflight runs before the first insert. */
    method AcquireLocks(ids: seq<NoteId>, owner: Owner, expiry: Height) returns (ok: bool)
      modifies this`locks
      ensures (View(), ok) == LockOutputs(old(View()), ids, owner, expiry, old(Position()).height)
    {
      ok := Preflight(ids, owner);
      if ok {
        InsertLocks(ids, owner, expiry);
      }
    }

    method InsertLocks(ids: seq<NoteId>, owner: Owner, expiry: Height)
      modifies this`locks
      ensures locks == old(locks) + map id | id in ids :: Lock(owner, expiry)
    {
      for i := 0 to |ids|
        invariant locks == old(locks) + map id | id in ids[..i] :: Lock(owner, expiry)
      {
        locks := locks[ids[i] := Lock(owner, expiry)];
        assert forall id :: id in ids[..i + 1] <==> id in ids[..i] || id == ids[i];
      }
      assert ids[..|ids|] == ids;
    }
  }

  /** Dropping field by field, from the set of orphaned transactions, is the rewind. */
  lemma DropByOrphans(t: Tables, height: Height, orphaned: set<Txid>)
    requires orphaned == MinedOver(t.statuses, height)
    ensures var notes := WithoutTxids(t.notes, orphaned);
      DropAbove(t, height) ==
        t.(blocks := UpToHeight(t.blocks, height), notes := notes,
           nullifiers := WithoutOwners(t.nullifiers, orphaned),
           spends := StandingSpends(t.spends, notes.Keys, orphaned - t.transactions.Keys),
           indices := t.indices - orphaned, statuses := UnmineAll(t.statuses, height),
           locks := t.locks - (t.locks.Keys - notes.Keys))
  {
    assert forall x :: x in orphaned <==> MinedAbove(t, x, height);
    DropNotes(t, height, orphaned);
    DropSpends(t, height, orphaned, WithoutTxids(t.notes, orphaned));
  }

  lemma DropNotes(t: Tables, height: Height, orphaned: set<Txid>)
    requires forall x :: x in orphaned <==> MinedAbove(t, x, height)
    ensures DropAbove(t, height).notes == WithoutTxids(t.notes, orphaned)
    ensures DropAbove(t, height).nullifiers == WithoutOwners(t.nullifiers, orphaned)
    ensures DropAbove(t, height).indices == t.indices - orphaned
  {
  }

  lemma DropSpends(t: Tables, height: Height, orphaned: set<Txid>, notes: map<NoteId, Output>)
    requires forall x :: x in orphaned <==> MinedAbove(t, x, height)
    requires notes == DropAbove(t, height).notes
    ensures DropAbove(t, height).spends == StandingSpends(t.spends, notes.Keys, orphaned - t.transactions.Keys)
    ensures DropAbove(t, height).locks == t.locks - (t.locks.Keys - notes.Keys)
  {
  }

  // ---------------------------------------------------------------------------
  // An accepted batch is a legal run of the wallet
  // ---------------------------------------------------------------------------

  /** Batches that extend the tip keep every reference inside the held notes and mine nothing above the new tip. */
  lemma {:induction false} AcceptedBatchRefers(t: Tables, tip: Tip, bs: seq<ScannedBlock>)
    requires Refers(t, tip.height) && Extends(tip, bs)
    ensures Refers(PutAll(t, bs), tip.height + |bs|)
  {
    if bs != [] {
      var rest, last := bs[..|bs| - 1], bs[|bs| - 1];
      assert forall i | 0 <= i < |rest| :: rest[i] == bs[i];
      AcceptedBatchRefers(t, tip, rest);
      PutBlockRefers(PutAll(t, rest), last.(names := []), tip.height + |rest|);
      assert PutBlock(PutAll(t, rest), last.(names := [])) == PutScanned(PutAll(t, rest), last);
    }
  }
}
