/**
 What a scanned block makes of the wallet's tables, output by output and nullifier by
 nullifier, and that a note whose nullifier was revealed is neither balance nor input.
 */
module WalletLaws {
  import opened Basics
  import opened WalletTables
  import opened WalletSpending

  // ---------------------------------------------------------------------------
  // A block as lists
  // ---------------------------------------------------------------------------

  /** Each of these with its transaction. */
  function Tagged<T>(txid: Txid, xs: seq<T>): (r: seq<(Txid, T)>)
    ensures |r| == |xs| && forall i | 0 <= i < |xs| :: r[i] == (txid, xs[i])
  {
    seq(|xs|, i requires 0 <= i < |xs| => (txid, xs[i]))
  }

  lemma TaggedSnoc<T>(txid: Txid, xs: seq<T>)
    requires xs != []
    ensures var k := |xs| - 1; Tagged(txid, xs) == Tagged(txid, xs[..k]) + [(txid, xs[k])]
  {
  }

  /** The outputs of the transactions, in block order, each with its transaction. */
  function Outputs(txs: seq<WalletTx>): seq<(Txid, Received)> {
    if txs == [] then []
    else
      var last := txs[|txs| - 1];
      Outputs(txs[..|txs| - 1]) + Tagged(last.txid, last.outputs)
  }

  /** The nullifiers the transactions reveal, in block order, each with its transaction. */
  function Reveals(txs: seq<WalletTx>): seq<(Txid, (Pool, Nullifier))> {
    if txs == [] then []
    else
      var last := txs[|txs| - 1];
      Reveals(txs[..|txs| - 1]) + Tagged(last.txid, last.spends)
  }

  function IdOf(o: (Txid, Received)): NoteId {
    NoteId(o.0, o.1.pool, o.1.index)
  }

  /** Position `k` holds the last output stored as `id`. */
  ghost predicate LastStored(outs: seq<(Txid, Received)>, id: NoteId, k: nat) {
    k < |outs| && IdOf(outs[k]) == id && forall j | k < j < |outs| :: IdOf(outs[j]) != id
  }

  ghost predicate Keyed(o: (Txid, Received), key: (Pool, Nullifier)) {
    o.1.out.nf == Some(key.1) && o.1.pool == key.0
  }

  /** Position `k` holds the last output with this nullifier. */
  ghost predicate LastKeyed(outs: seq<(Txid, Received)>, key: (Pool, Nullifier), k: nat) {
    k < |outs| && Keyed(outs[k], key) && forall j | k < j < |outs| :: !Keyed(outs[j], key)
  }

  /** Note `id` is the last output stored as it, or what it was. */
  ghost predicate NoteStored(before: Tables, after: Tables, outs: seq<(Txid, Received)>, id: NoteId) {
    && (forall k: nat | LastStored(outs, id, k) :: id in after.notes && after.notes[id] == outs[k].1.out)
    && ((forall k: nat :: !LastStored(outs, id, k)) ==>
          (id in after.notes <==> id in before.notes) && (id in before.notes ==> after.notes[id] == before.notes[id]))
  }

  /** Nullifier `key` names the last output that has it, or the note it named. */
  ghost predicate KeyStored(before: Tables, after: Tables, outs: seq<(Txid, Received)>, key: (Pool, Nullifier)) {
    && (forall k: nat | LastKeyed(outs, key, k) :: key in after.nullifiers && after.nullifiers[key] == IdOf(outs[k]))
    && ((forall k: nat :: !LastKeyed(outs, key, k)) ==>
          (key in after.nullifiers <==> key in before.nullifiers)
          && (key in before.nullifiers ==> after.nullifiers[key] == before.nullifiers[key]))
  }

  /** The notes and nullifiers of `after` are those of `before` with these outputs stored, a later one over an earlier. */
  ghost predicate Stores(before: Tables, after: Tables, outs: seq<(Txid, Received)>) {
    (forall id :: NoteStored(before, after, outs, id)) && forall key :: KeyStored(before, after, outs, key)
  }

  // ---------------------------------------------------------------------------
  // Storing outputs
  // ---------------------------------------------------------------------------

  lemma LastStoredSnoc(outs: seq<(Txid, Received)>, o: (Txid, Received), id: NoteId, k: nat)
    ensures LastStored(outs + [o], id, k) <==> if IdOf(o) == id then k == |outs| else LastStored(outs, id, k)
  {
    var more := outs + [o];
    assert more[|outs|] == o && forall j | 0 <= j < |outs| :: more[j] == outs[j];
    if k < |outs| && LastStored(more, id, k) { assert IdOf(more[|outs|]) != id; }
  }

  lemma LastKeyedSnoc(outs: seq<(Txid, Received)>, o: (Txid, Received), key: (Pool, Nullifier), k: nat)
    ensures LastKeyed(outs + [o], key, k) <==> if Keyed(o, key) then k == |outs| else LastKeyed(outs, key, k)
  {
    var more := outs + [o];
    assert more[|outs|] == o && forall j | 0 <= j < |outs| :: more[j] == outs[j];
    if k < |outs| && LastKeyed(more, key, k) { assert !Keyed(more[|outs|], key); }
  }

  lemma OneNoteStored(before: Tables, mid: Tables, outs: seq<(Txid, Received)>, o: (Txid, Received), id: NoteId)
    requires NoteStored(before, mid, outs, id)
    ensures NoteStored(before, PutOutput(mid, o.0, o.1), outs + [o], id)
  {
    forall k: nat ensures LastStored(outs + [o], id, k) <==> if IdOf(o) == id then k == |outs| else LastStored(outs, id, k) {
      LastStoredSnoc(outs, o, id, k);
    }
    if IdOf(o) == id { assert LastStored(outs + [o], id, |outs|); }
  }

  lemma OneKeyStored(before: Tables, mid: Tables, outs: seq<(Txid, Received)>, o: (Txid, Received), key: (Pool, Nullifier))
    requires KeyStored(before, mid, outs, key)
    ensures KeyStored(before, PutOutput(mid, o.0, o.1), outs + [o], key)
  {
    forall k: nat ensures LastKeyed(outs + [o], key, k) <==> if Keyed(o, key) then k == |outs| else LastKeyed(outs, key, k) {
      LastKeyedSnoc(outs, o, key, k);
    }
    var after := PutOutput(mid, o.0, o.1).nullifiers;
    if Keyed(o, key) {
      assert key == (o.1.pool, o.1.out.nf.value) && after[key] == IdOf(o);
      assert LastKeyed(outs + [o], key, |outs|);
    } else {
      assert o.1.out.nf.Some? ==> key != (o.1.pool, o.1.out.nf.value);
      assert (key in after <==> key in mid.nullifiers) && (key in mid.nullifiers ==> after[key] == mid.nullifiers[key]);
      assert forall k: nat :: LastKeyed(outs + [o], key, k) <==> LastKeyed(outs, key, k);
    }
  }

  lemma StoresOne(before: Tables, mid: Tables, outs: seq<(Txid, Received)>, o: (Txid, Received))
    requires Stores(before, mid, outs)
    ensures Stores(before, PutOutput(mid, o.0, o.1), outs + [o])
  {
    forall id ensures NoteStored(before, PutOutput(mid, o.0, o.1), outs + [o], id) {
      OneNoteStored(before, mid, outs, o, id);
    }
    forall key ensures KeyStored(before, PutOutput(mid, o.0, o.1), outs + [o], key) {
      OneKeyStored(before, mid, outs, o, key);
    }
  }

  /** Only the notes and the nullifiers matter. */
  lemma StoresSame(before: Tables, a: Tables, b: Tables, outs: seq<(Txid, Received)>)
    requires Stores(before, a, outs) && b.notes == a.notes && b.nullifiers == a.nullifiers
    ensures Stores(before, b, outs)
  {
    forall id ensures NoteStored(before, b, outs, id) { assert NoteStored(before, a, outs, id); }
    forall key ensures KeyStored(before, b, outs, key) { assert KeyStored(before, a, outs, key); }
  }

  lemma StoresNothing(t: Tables)
    ensures Stores(t, t, [])
  {
    forall id ensures NoteStored(t, t, [], id) {}
    forall key ensures KeyStored(t, t, [], key) {}
  }

  /** Two tables that differ in notes, nullifiers, statuses and places only. */
  ghost predicate ElsewhereSame(a: Tables, b: Tables) {
    && b.spends == a.spends && b.blocks == a.blocks && b.transactions == a.transactions
    && b.trusted == a.trusted && b.locks == a.locks
  }

  lemma {:induction false} PutOutputsStores(before: Tables, mid: Tables, outs: seq<(Txid, Received)>, txid: Txid, rs: seq<Received>)
    requires Stores(before, mid, outs)
    ensures Stores(before, PutOutputs(mid, txid, rs), outs + Tagged(txid, rs))
    ensures var after := PutOutputs(mid, txid, rs);
      ElsewhereSame(mid, after) && after.statuses == mid.statuses && after.indices == mid.indices
  {
    if rs == [] {
      assert outs + Tagged(txid, rs) == outs;
    } else {
      var k := |rs| - 1;
      PutOutputsStores(before, mid, outs, txid, rs[..k]);
      var shorter := Tagged(txid, rs[..k]);
      StoresOne(before, PutOutputs(mid, txid, rs[..k]), outs + shorter, (txid, rs[k]));
      TaggedSnoc(txid, rs);
      assert outs + Tagged(txid, rs) == outs + shorter + [(txid, rs[k])];
    }
  }

  /** Position `k` holds the last transaction of this block with this id. */
  ghost predicate LastTx(txs: seq<WalletTx>, txid: Txid, k: nat) {
    k < |txs| && txs[k].txid == txid && forall j | k < j < |txs| :: txs[j].txid != txid
  }

  /** A transaction of the block is mined at its height, at its place in the block; any other stands as it did. */
  ghost predicate TxMined(before: Tables, after: Tables, txs: seq<WalletTx>, height: Height, x: Txid) {
    && (forall k: nat | LastTx(txs, x, k) ::
          x in after.statuses && after.statuses[x] == Mined(height) && x in after.indices && after.indices[x] == txs[k].blockIndex)
    && ((forall k: nat :: !LastTx(txs, x, k)) ==>
          && (x in after.statuses <==> x in before.statuses) && (x in before.statuses ==> after.statuses[x] == before.statuses[x])
          && (x in after.indices <==> x in before.indices) && (x in before.indices ==> after.indices[x] == before.indices[x]))
  }

  ghost predicate Mines(before: Tables, after: Tables, txs: seq<WalletTx>, height: Height) {
    forall x :: TxMined(before, after, txs, height, x)
  }

  lemma LastTxSnoc(txs: seq<WalletTx>, tx: WalletTx, x: Txid, k: nat)
    ensures LastTx(txs + [tx], x, k) <==> if tx.txid == x then k == |txs| else LastTx(txs, x, k)
  {
    var more := txs + [tx];
    assert more[|txs|] == tx && forall j | 0 <= j < |txs| :: more[j] == txs[j];
    if k < |txs| && LastTx(more, x, k) { assert more[|txs|].txid != x; }
  }

  lemma OneTxMined(before: Tables, mid: Tables, after: Tables, txs: seq<WalletTx>, tx: WalletTx, height: Height, x: Txid)
    requires TxMined(before, mid, txs, height, x)
    requires after.statuses == mid.statuses[tx.txid := Mined(height)] && after.indices == mid.indices[tx.txid := tx.blockIndex]
    ensures TxMined(before, after, txs + [tx], height, x)
  {
    forall k: nat ensures LastTx(txs + [tx], x, k) <==> if tx.txid == x then k == |txs| else LastTx(txs, x, k) {
      LastTxSnoc(txs, tx, x, k);
    }
    if tx.txid == x { assert LastTx(txs + [tx], x, |txs|); }
  }

  lemma MinesOne(before: Tables, mid: Tables, after: Tables, txs: seq<WalletTx>, tx: WalletTx, height: Height)
    requires Mines(before, mid, txs, height)
    requires after.statuses == mid.statuses[tx.txid := Mined(height)] && after.indices == mid.indices[tx.txid := tx.blockIndex]
    ensures Mines(before, after, txs + [tx], height)
  {
    forall x ensures TxMined(before, after, txs + [tx], height, x) {
      OneTxMined(before, mid, after, txs, tx, height, x);
    }
  }

  lemma MinesNothing(t: Tables, height: Height)
    ensures Mines(t, t, [], height)
  {
    forall x ensures TxMined(t, t, [], height, x) {}
  }

  lemma PutTxLaw(t: Tables, mid: Tables, txs: seq<WalletTx>, tx: WalletTx, height: Height)
    requires Stores(t, mid, Outputs(txs)) && Mines(t, mid, txs, height) && ElsewhereSame(t, mid)
    ensures var after := PutTx(mid, tx, height);
      Stores(t, after, Outputs(txs + [tx])) && Mines(t, after, txs + [tx], height) && ElsewhereSame(t, after)
  {
    var stamped := mid.(statuses := mid.statuses[tx.txid := Mined(height)], indices := mid.indices[tx.txid := tx.blockIndex]);
    StoresSame(t, mid, stamped, Outputs(txs));
    PutOutputsStores(t, stamped, Outputs(txs), tx.txid, tx.outputs);
    MinesOne(t, mid, PutTx(mid, tx, height), txs, tx, height);
    assert (txs + [tx])[..|txs|] == txs;
  }

  lemma {:induction false} PutTxsLaw(t: Tables, txs: seq<WalletTx>, height: Height)
    ensures var after := PutTxs(t, txs, height);
      Stores(t, after, Outputs(txs)) && Mines(t, after, txs, height) && ElsewhereSame(t, after)
  {
    if txs == [] {
      StoresNothing(t);
      MinesNothing(t, height);
    } else {
      var k := |txs| - 1;
      PutTxsLaw(t, txs[..k], height);
      PutTxLaw(t, PutTxs(t, txs[..k], height), txs[..k], txs[k], height);
      assert txs[..k] + [txs[k]] == txs;
    }
  }

  // ---------------------------------------------------------------------------
  // Spends
  // ---------------------------------------------------------------------------

  /** The nullifier at position `k` is that of note `id`. */
  ghost predicate Hits(keys: map<(Pool, Nullifier), NoteId>, shown: seq<(Txid, (Pool, Nullifier))>, id: NoteId, k: nat) {
    k < |shown| && shown[k].1 in keys && keys[shown[k].1] == id
  }

  ghost predicate LastHit(keys: map<(Pool, Nullifier), NoteId>, shown: seq<(Txid, (Pool, Nullifier))>, id: NoteId, k: nat) {
    Hits(keys, shown, id, k) && forall j | k < j < |shown| :: !Hits(keys, shown, id, j)
  }

  /** Note `id` is spent by the last transaction that reveals its nullifier, or as it was. */
  ghost predicate SpentAs(before: Tables, after: Tables, shown: seq<(Txid, (Pool, Nullifier))>, id: NoteId) {
    && (forall k: nat | LastHit(after.nullifiers, shown, id, k) :: id in after.spends && after.spends[id] == shown[k].0)
    && ((forall k: nat :: !Hits(after.nullifiers, shown, id, k)) ==>
          (id in after.spends <==> id in before.spends) && (id in before.spends ==> after.spends[id] == before.spends[id]))
  }

  ghost predicate Spends(before: Tables, after: Tables, shown: seq<(Txid, (Pool, Nullifier))>) {
    forall id :: SpentAs(before, after, shown, id)
  }

  lemma {:induction false} LastHitExists(keys: map<(Pool, Nullifier), NoteId>, shown: seq<(Txid, (Pool, Nullifier))>, id: NoteId, k: nat)
    returns (last: nat)
    requires Hits(keys, shown, id, k)
    ensures LastHit(keys, shown, id, last)
    decreases |shown| - k
  {
    if j :| k < j < |shown| && Hits(keys, shown, id, j) {
      last := LastHitExists(keys, shown, id, j);
    } else {
      last := k;
    }
  }

  lemma HitsSnoc(keys: map<(Pool, Nullifier), NoteId>, shown: seq<(Txid, (Pool, Nullifier))>, r: (Txid, (Pool, Nullifier)), id: NoteId)
    ensures forall k: nat :: Hits(keys, shown + [r], id, k) <==>
      Hits(keys, shown, id, k) || (k == |shown| && r.1 in keys && keys[r.1] == id)
  {
  }

  lemma OneSpent(before: Tables, mid: Tables, shown: seq<(Txid, (Pool, Nullifier))>, r: (Txid, (Pool, Nullifier)), id: NoteId)
    requires SpentAs(before, mid, shown, id)
    ensures SpentAs(before, SpendKey(mid, r.0, r.1), shown + [r], id)
  {
    var after, keys, more := SpendKey(mid, r.0, r.1), mid.nullifiers, shown + [r];
    HitsSnoc(keys, shown, r, id);
    if r.1 in keys && keys[r.1] == id {
      assert Hits(keys, more, id, |shown|);
    } else {
      forall k: nat | LastHit(keys, more, id, k) ensures id in after.spends && after.spends[id] == more[k].0 {
        assert forall j | k < j < |shown| :: !Hits(keys, more, id, j);
        assert LastHit(keys, shown, id, k);
      }
    }
  }

  lemma SpendsOne(before: Tables, mid: Tables, shown: seq<(Txid, (Pool, Nullifier))>, r: (Txid, (Pool, Nullifier)))
    requires Spends(before, mid, shown)
    ensures Spends(before, SpendKey(mid, r.0, r.1), shown + [r])
  {
    forall id ensures SpentAs(before, SpendKey(mid, r.0, r.1), shown + [r], id) {
      OneSpent(before, mid, shown, r, id);
    }
  }

  lemma SpendsNothing(t: Tables)
    ensures Spends(t, t, [])
  {
    forall id ensures SpentAs(t, t, [], id) {}
  }

  /** Two tables that differ in spends only. */
  ghost predicate SpendsApart(a: Tables, b: Tables) {
    b == a.(spends := b.spends)
  }

  lemma {:induction false} SpendKeysLaw(before: Tables, mid: Tables, shown: seq<(Txid, (Pool, Nullifier))>, txid: Txid,
                                        keys: seq<(Pool, Nullifier)>)
    requires Spends(before, mid, shown)
    ensures var after := SpendKeys(mid, txid, keys);
      && Spends(before, after, shown + Tagged(txid, keys))
      && SpendsApart(mid, after)
  {
    if keys == [] {
      assert shown + Tagged(txid, keys) == shown;
    } else {
      var k := |keys| - 1;
      SpendKeysLaw(before, mid, shown, txid, keys[..k]);
      var shorter := Tagged(txid, keys[..k]);
      SpendsOne(before, SpendKeys(mid, txid, keys[..k]), shown + shorter, (txid, keys[k]));
      TaggedSnoc(txid, keys);
      assert shown + Tagged(txid, keys) == shown + shorter + [(txid, keys[k])];
    }
  }

  lemma {:induction false} SpendTxsLaw(t: Tables, txs: seq<WalletTx>)
    ensures Spends(t, SpendTxs(t, txs), Reveals(txs)) && SpendsApart(t, SpendTxs(t, txs))
  {
    if txs == [] {
      SpendsNothing(t);
    } else {
      var k := |txs| - 1;
      SpendTxsLaw(t, txs[..k]);
      SpendKeysLaw(t, SpendTxs(t, txs[..k]), Reveals(txs[..k]), txs[k].txid, txs[k].spends);
    }
  }

  // ---------------------------------------------------------------------------
  // The block
  // ---------------------------------------------------------------------------

  /**
   A block stores its outputs, mines its transactions and marks spent exactly the notes
   whose nullifier one of them reveals, its own outputs included; nothing else changes.
   */
  ghost predicate BlockApplied(t: Tables, b: ScannedBlock, after: Tables) {
    && Stores(t, after, Outputs(b.txs)) && Mines(t, after, b.txs, b.height) && Spends(t, after, Reveals(b.txs))
    && after.blocks == t.blocks[b.height := b.hash]
    && after.transactions == t.transactions && after.trusted == t.trusted && after.locks == t.locks
  }

  lemma SpendsFrom(t: Tables, put: Tables, spent: Tables, after: Tables, shown: seq<(Txid, (Pool, Nullifier))>)
    requires Spends(put, spent, shown) && put.spends == t.spends
    requires after.spends == spent.spends && after.nullifiers == spent.nullifiers
    ensures Spends(t, after, shown)
  {
    forall id ensures SpentAs(t, after, shown, id) { assert SpentAs(put, spent, shown, id); }
  }

  lemma MinesSame(t: Tables, a: Tables, b: Tables, txs: seq<WalletTx>, height: Height)
    requires Mines(t, a, txs, height) && b.statuses == a.statuses && b.indices == a.indices
    ensures Mines(t, b, txs, height)
  {
    forall x ensures TxMined(t, b, txs, height, x) { assert TxMined(t, a, txs, height, x); }
  }

  lemma BlockLaw(t: Tables, b: ScannedBlock)
    ensures BlockApplied(t, b, PutScanned(t, b))
  {
    var put := PutTxs(t, b.txs, b.height);
    var spent, after := SpendTxs(put, b.txs), PutScanned(t, b);
    PutTxsLaw(t, b.txs, b.height);
    SpendTxsLaw(put, b.txs);
    StoresSame(t, put, after, Outputs(b.txs));
    MinesSame(t, put, after, b.txs, b.height);
    SpendsFrom(t, put, spent, after, Reveals(b.txs));
  }

  /** Two tables the law allows are one. */
  lemma BlockIsOne(t: Tables, b: ScannedBlock, u: Tables, v: Tables)
    requires BlockApplied(t, b, u) && BlockApplied(t, b, v)
    ensures u == v
  {
    NotesAreOne(t, u, v, Outputs(b.txs));
    MinedAreOne(t, u, v, b.txs, b.height);
    SpendsAreOne(t, u, v, Reveals(b.txs));
  }

  lemma NotesAreOne(t: Tables, u: Tables, v: Tables, outs: seq<(Txid, Received)>)
    requires Stores(t, u, outs) && Stores(t, v, outs)
    ensures u.notes == v.notes && u.nullifiers == v.nullifiers
  {
    forall id ensures (id in u.notes <==> id in v.notes) && (id in u.notes ==> u.notes[id] == v.notes[id]) {
      assert NoteStored(t, u, outs, id) && NoteStored(t, v, outs, id);
    }
    forall key ensures (key in u.nullifiers <==> key in v.nullifiers) && (key in u.nullifiers ==> u.nullifiers[key] == v.nullifiers[key]) {
      assert KeyStored(t, u, outs, key) && KeyStored(t, v, outs, key);
    }
  }

  lemma MinedAreOne(t: Tables, u: Tables, v: Tables, txs: seq<WalletTx>, height: Height)
    requires Mines(t, u, txs, height) && Mines(t, v, txs, height)
    ensures u.statuses == v.statuses && u.indices == v.indices
  {
    forall x
      ensures (x in u.statuses <==> x in v.statuses) && (x in u.statuses ==> u.statuses[x] == v.statuses[x])
      ensures (x in u.indices <==> x in v.indices) && (x in u.indices ==> u.indices[x] == v.indices[x])
    {
      assert TxMined(t, u, txs, height, x) && TxMined(t, v, txs, height, x);
    }
  }

  lemma SpendsAreOne(t: Tables, u: Tables, v: Tables, shown: seq<(Txid, (Pool, Nullifier))>)
    requires Spends(t, u, shown) && Spends(t, v, shown) && u.nullifiers == v.nullifiers
    ensures u.spends == v.spends
  {
    forall id ensures (id in u.spends <==> id in v.spends) && (id in u.spends ==> u.spends[id] == v.spends[id]) {
      assert SpentAs(t, u, shown, id) && SpentAs(t, v, shown, id);
      if k: nat :| Hits(u.nullifiers, shown, id, k) { var last := LastHitExists(u.nullifiers, shown, id, k); }
    }
  }

  // ---------------------------------------------------------------------------
  // What may be spent
  // ---------------------------------------------------------------------------

  /** A spend is recorded, and it is not that of an unmined local transaction past its expiry; expiry zero never passes. */
  ghost predicate Gone(t: Tables, id: NoteId, target: Height) {
    id in t.spends &&
    var x := t.spends[id];
    !(x in t.statuses && !t.statuses[x].Mined? && x in t.transactions && t.transactions[x] != 0 && t.transactions[x] < target)
  }

  ghost predicate LockedFor(t: Tables, id: NoteId, target: Height) {
    id in t.locks && t.locks[id].expiry >= target
  }

  /** Mined deep enough: change, internal receipts and trusted transactions need the trusted depth, all others the untrusted one. */
  ghost predicate Deep(t: Tables, id: NoteId, target: Height, policy: Confirmations)
    requires id in t.notes
  {
    var o := t.notes[id];
    var depth := if o.change || o.scope == Some(Internal) || id.txid in t.trusted then policy.trusted else policy.untrusted;
    && id.txid in t.statuses && t.statuses[id.txid].Mined?
    && (t.statuses[id.txid].height + depth <= target || (t.statuses[id.txid].height == 0 && target < depth))
  }

  /** A note may be drawn exactly when it is the account's, unspent, deep enough, not excluded, and free of a lock the filter respects. */
  lemma EligibleIff(t: Tables, account: AccountId, pool: Pool, target: Height, policy: Confirmations,
                    exclude: set<NoteId>, filter: LockFilter, id: NoteId)
    ensures id in EligibleSet(t, account, pool, target, policy, exclude, filter) <==>
      && id in t.notes && id.pool == pool && t.notes[id].account == account && t.notes[id].scope.Some? && id !in exclude
      && !Gone(t, id, target) && Deep(t, id, target, policy)
      && (LockedFor(t, id, target) ==> filter.Unfiltered? || t.locks[id].owner in filter.overridable)
  {
  }

  /** Where an unspent note counts: dust up to the marginal fee, waiting until deep enough, locked, or spendable. */
  lemma BucketIff(t: Tables, account: AccountId, pool: Pool, target: Height, policy: Confirmations, k: Bucket, id: NoteId)
    ensures id in BucketSet(t, account, pool, target, policy, k) <==>
      && id in t.notes && id.pool == pool && t.notes[id].account == account && !Gone(t, id, target)
      && (k.Dust? <==> t.notes[id].value <= 5000)
      && (!k.Dust? ==>
            && (k.WaitingChange? || k.Waiting? <==> !Deep(t, id, target, policy))
            && (k.WaitingChange? ==> t.notes[id].change || t.notes[id].scope == Some(Internal))
            && (k.Waiting? ==> !t.notes[id].change && t.notes[id].scope != Some(Internal))
            && (k.LockedUp? ==> LockedFor(t, id, target)) && (k.Free? ==> !LockedFor(t, id, target)))
  {
  }

  /** Of two notes the one in the preferred lock state comes first when the filter ranks locks, and otherwise the older one. */
  lemma BeforeIff(t: Tables, a: NoteId, b: NoteId, target: Height, filter: LockFilter)
    requires a in t.notes && b in t.notes
    ensures Before(t, a, b, target, filter) <==>
      if filter.Override? && filter.overridable != {} && LockedFor(t, a, target) != LockedFor(t, b, target)
      then LockedFor(t, a, target) == filter.prefersLocked
      else t.notes[a].position <= t.notes[b].position
  {
  }

  /** Whatever is drawn from the sources was eligible in one of them, and is worth more than the marginal fee. */
  lemma {:induction false} DrawnAreEligible(t: Tables, drawn: seq<seq<NoteId>>, account: AccountId, sources: seq<Pool>, target: Height,
                                            policy: Confirmations, exclude: set<NoteId>, filter: LockFilter, id: NoteId)
    requires Draws(t, drawn, account, sources, target, policy, exclude, filter) && id in NonDustAll(t, drawn)
    ensures id.pool in sources && id in EligibleSet(t, account, id.pool, target, policy, exclude, filter) && t.notes[id].value > 5000
  {
    var n := |drawn| - 1;
    if id in NonDustOf(t, drawn[n]) {
      assert DrawnInOrder(t, drawn[n], EligibleSet(t, account, sources[n], target, policy, exclude, filter), target, filter);
      assert id in ToSet(drawn[n]);
    } else {
      forall i | 0 <= i < n
        ensures DrawnInOrder(t, drawn[..n][i], EligibleSet(t, account, sources[..n][i], target, policy, exclude, filter), target, filter)
      {
        assert drawn[..n][i] == drawn[i] && sources[..n][i] == sources[i];
      }
      DrawnAreEligible(t, drawn[..n], account, sources[..n], target, policy, exclude, filter, id);
    }
  }

  /**
   A note whose nullifier a transaction of the block reveals is spent from then on: for
   every account, pool, target and policy it lies in no bucket of the balance and no
   selection draws it, whatever the exclusions and the filter.
   */
  lemma RevealedIsUnspendable(t: Tables, b: ScannedBlock, id: NoteId, k: nat)
    requires Hits(PutScanned(t, b).nullifiers, Reveals(b.txs), id, k)
    ensures var after := PutScanned(t, b);
      && (forall account, pool, target, policy, bucket :: id !in BucketSet(after, account, pool, target, policy, bucket))
      && (forall account, pool, target, policy, exclude, filter :: id !in EligibleSet(after, account, pool, target, policy, exclude, filter))
      && forall drawn, account, sources, target, policy, exclude, filter |
           Draws(after, drawn, account, sources, target, policy, exclude, filter) :: id !in NonDustAll(after, drawn)
  {
    var after := PutScanned(t, b);
    BlockLaw(t, b);
    var last := LastHitExists(after.nullifiers, Reveals(b.txs), id, k);
    assert SpentAs(t, after, Reveals(b.txs), id);
    var x := Reveals(b.txs)[last].0;
    RevealerIsMined(t, b, last);
    assert after.spends[id] == x && after.statuses[x].Mined?;
    forall target ensures Gone(after, id, target) {}
    forall account, pool, target, policy, bucket ensures id !in BucketSet(after, account, pool, target, policy, bucket) {
      BucketIff(after, account, pool, target, policy, bucket, id);
    }
    forall account, pool, target, policy, exclude, filter
      ensures id !in EligibleSet(after, account, pool, target, policy, exclude, filter)
    {
      EligibleIff(after, account, pool, target, policy, exclude, filter, id);
    }
    forall drawn, account, sources, target, policy, exclude, filter |
      Draws(after, drawn, account, sources, target, policy, exclude, filter)
      ensures id !in NonDustAll(after, drawn)
    {
      if id in NonDustAll(after, drawn) {
        DrawnAreEligible(after, drawn, account, sources, target, policy, exclude, filter, id);
      }
    }
  }

  lemma {:induction false} RevealedBy(txs: seq<WalletTx>, k: nat) returns (i: nat)
    requires k < |Reveals(txs)|
    ensures i < |txs| && txs[i].txid == Reveals(txs)[k].0
  {
    var n := |txs| - 1;
    if k < |Reveals(txs[..n])| { i := RevealedBy(txs[..n], k); } else { i := n; }
  }

  lemma {:induction false} LastTxExists(txs: seq<WalletTx>, x: Txid, i: nat) returns (last: nat)
    requires i < |txs| && txs[i].txid == x
    ensures LastTx(txs, x, last)
    decreases |txs| - i
  {
    if j :| i < j < |txs| && txs[j].txid == x { last := LastTxExists(txs, x, j); } else { last := i; }
  }

  lemma RevealerIsMined(t: Tables, b: ScannedBlock, k: nat)
    requires k < |Reveals(b.txs)|
    ensures var after, x := PutScanned(t, b), Reveals(b.txs)[k].0; x in after.statuses && after.statuses[x] == Mined(b.height)
  {
    var x := Reveals(b.txs)[k].0;
    var i := RevealedBy(b.txs, k);
    var last := LastTxExists(b.txs, x, i);
    BlockLaw(t, b);
    assert TxMined(t, PutScanned(t, b), b.txs, b.height, x);
  }

  // ---------------------------------------------------------------------------
  // Whole chains
  // ---------------------------------------------------------------------------

  /** Every transaction seen is mined, those that spend included. */
  ghost predicate AllMined(t: Tables) {
    && (forall x | x in t.statuses :: t.statuses[x].Mined?)
    && forall id | id in t.spends :: t.spends[id] in t.statuses
  }

  lemma {:induction false} StoreNamesApart(t: Tables, names: seq<(Txid, Received)>)
    ensures var after := StoreNames(t, names); after.spends == t.spends && after.statuses == t.statuses
  {
    if names != [] { StoreNamesApart(t, names[..|names| - 1]); }
  }

  lemma NextBlockMined(t: Tables, b: ScannedBlock)
    requires AllMined(t)
    ensures AllMined(PutBlock(t, b)) && t.spends.Keys <= PutBlock(t, b).spends.Keys
  {
    var after := PutScanned(t, b);
    BlockLaw(t, b);
    StoreNamesApart(after, b.names);
    forall x | x in after.statuses ensures after.statuses[x].Mined? {
      assert TxMined(t, after, b.txs, b.height, x);
    }
    forall x | x in t.statuses ensures x in after.statuses { assert TxMined(t, after, b.txs, b.height, x); }
    forall id | id in t.spends ensures id in after.spends {
      assert SpentAs(t, after, Reveals(b.txs), id);
      if k: nat :| Hits(after.nullifiers, Reveals(b.txs), id, k) {
        var last := LastHitExists(after.nullifiers, Reveals(b.txs), id, k);
      }
    }
    forall id | id in after.spends ensures after.spends[id] in after.statuses {
      assert SpentAs(t, after, Reveals(b.txs), id);
      if k: nat :| Hits(after.nullifiers, Reveals(b.txs), id, k) {
        var last := LastHitExists(after.nullifiers, Reveals(b.txs), id, k);
        RevealerIsMined(t, b, last);
      }
    }
  }

  lemma {:induction false} BuiltMined(blocks: seq<ScannedBlock>)
    ensures AllMined(Build(blocks))
  {
    if blocks != [] {
      BuiltMined(blocks[..|blocks| - 1]);
      NextBlockMined(Build(blocks[..|blocks| - 1]), blocks[|blocks| - 1]);
    }
  }

  /** Once a block reveals a held note's nullifier, the note is spent at every later height of the chain, for every target. */
  lemma {:induction false} RevealedStaysSpent(blocks: seq<ScannedBlock>, j: nat, id: NoteId, k: nat)
    requires j < |blocks|
    requires Hits(PutScanned(Build(blocks[..j]), blocks[j]).nullifiers, Reveals(blocks[j].txs), id, k)
    ensures id in Build(blocks).spends
    ensures forall target :: Gone(Build(blocks), id, target)
  {
    var n := |blocks| - 1;
    BuiltMined(blocks);
    BuiltMined(blocks[..n]);
    NextBlockMined(Build(blocks[..n]), blocks[n]);
    if j < n {
      assert blocks[..n][..j] == blocks[..j];
      RevealedStaysSpent(blocks[..n], j, id, k);
    } else {
      var after := PutScanned(Build(blocks[..n]), blocks[n]);
      BlockLaw(Build(blocks[..n]), blocks[n]);
      var last := LastHitExists(after.nullifiers, Reveals(blocks[n].txs), id, k);
      assert SpentAs(Build(blocks[..n]), after, Reveals(blocks[n].txs), id);
      StoreNamesApart(after, blocks[n].names);
    }
  }

  /** A transaction mined above the height. */
  ghost predicate Orphaned(t: Tables, x: Txid, height: Height) {
    x in t.statuses && t.statuses[x].Mined? && t.statuses[x].height > height
  }

  /**
   A rewind, table by table: what orphaned transactions created goes, with the nullifiers
   and locks of their notes; a spend of a held note goes iff its transaction is orphaned
   and was not built here; orphaned transactions are known to be in no block; local
   transactions stay.
   */
  lemma RewindLaw(t: Tables, height: Height)
    ensures var after := DropAbove(t, height);
      && after.blocks == (map h | h in t.blocks && h <= height :: t.blocks[h])
      && after.notes == (map id | id in t.notes && !Orphaned(t, id.txid, height) :: t.notes[id])
      && after.nullifiers == (map k | k in t.nullifiers && !Orphaned(t, t.nullifiers[k].txid, height) :: t.nullifiers[k])
      && after.spends == (map id | id in t.spends && id in after.notes
                            && (Orphaned(t, t.spends[id], height) ==> t.spends[id] in t.transactions) :: t.spends[id])
      && after.indices == (map x | x in t.indices && !Orphaned(t, x, height) :: t.indices[x])
      && after.statuses == (map x | x in t.statuses :: if Orphaned(t, x, height) then NotInMainChain else t.statuses[x])
      && after.locks == (map id | id in t.locks && id in after.notes :: t.locks[id])
      && after.transactions == t.transactions && after.trusted == t.trusted
  {
    assert forall x :: Orphaned(t, x, height) <==> MinedAbove(t, x, height);
  }

  // ---------------------------------------------------------------------------
  // Locks and local sends
  // ---------------------------------------------------------------------------

  /** Locks are taken on all the outputs, or on none when one is not held or another owner's lock on it is live. */
  lemma LockLaw(t: Tables, ids: seq<NoteId>, owner: Owner, expiry: Height, tip: Height)
    ensures var (after, ok) := LockOutputs(t, ids, owner, expiry, tip);
      && (ok <==> forall id | id in ids ::
            id in t.notes && (id in t.locks && t.locks[id].expiry > tip ==> t.locks[id].owner == owner))
      && after == t.(locks := after.locks) && (!ok ==> after == t)
      && (ok ==> forall id ::
            && (id in after.locks <==> id in t.locks || id in ids)
            && (id in after.locks ==> after.locks[id] == if id in ids then Lock(owner, expiry) else t.locks[id]))
  {
  }

  /** Some of these nullifiers is that of note `id`. */
  ghost predicate Covers(t: Tables, keys: seq<(Pool, Nullifier)>, id: NoteId) {
    exists key :: key in keys && key in t.nullifiers && t.nullifiers[key] == id
  }

  lemma {:induction false} RecordSpendsLaw(t: Tables, txid: Txid, keys: seq<(Pool, Nullifier)>, id: NoteId)
    ensures var after := RecordSpends(t, txid, keys);
      && after == t.(spends := after.spends, locks := after.locks)
      && (id in after.spends <==> id in t.spends || Covers(t, keys, id))
      && (id in after.spends ==> after.spends[id] == if Covers(t, keys, id) then txid else t.spends[id])
      && (id in after.locks <==> id in t.locks && !Covers(t, keys, id)) && (id in after.locks ==> after.locks[id] == t.locks[id])
  {
    if keys != [] {
      var n := |keys| - 1;
      RecordSpendsLaw(t, txid, keys[..n], id);
      assert keys == keys[..n] + [keys[n]];
      assert Covers(t, keys, id) <==> Covers(t, keys[..n], id) || (keys[n] in t.nullifiers && t.nullifiers[keys[n]] == id) by {
        assert forall key :: key in keys <==> key in keys[..n] || key == keys[n];
      }
    }
  }

  /** A local send records its notes as spent by it and frees their locks; its status is kept if it has one. */
  lemma SentLaw(t: Tables, txid: Txid, expiry: Height, keys: seq<(Pool, Nullifier)>, id: NoteId)
    ensures var after := RecordSent(t, txid, expiry, keys);
      && after.transactions == t.transactions[txid := expiry]
      && after.statuses == (if txid in t.statuses then t.statuses else t.statuses[txid := NotInMainChain])
      && after.notes == t.notes && after.nullifiers == t.nullifiers && after.blocks == t.blocks && after.indices == t.indices
      && (id in after.spends <==> id in t.spends || Covers(t, keys, id))
      && (id in after.spends ==> after.spends[id] == if Covers(t, keys, id) then txid else t.spends[id])
      && (id in after.locks <==> id in t.locks && !Covers(t, keys, id)) && (id in after.locks ==> after.locks[id] == t.locks[id])
  {
    var t1 := t.(transactions := t.transactions[txid := expiry],
                 statuses := if txid in t.statuses then t.statuses else t.statuses[txid := NotInMainChain]);
    RecordSpendsLaw(t1, txid, keys, id);
    assert Covers(t1, keys, id) <==> Covers(t, keys, id);
  }
}
