/** With nothing sent locally, a rewound wallet is the wallet built from the surviving blocks. */
module WalletRewinds {
  import opened Basics
  import opened WalletTables

  /** Same blocks, notes, nullifiers, spends and transaction indices, and the same mined transactions. */
  ghost predicate Same(a: Tables, b: Tables) {
    && a.blocks == b.blocks && a.notes == b.notes && a.nullifiers == b.nullifiers
    && a.spends == b.spends && a.indices == b.indices
    && forall x :: IsMined(a, x) == IsMined(b, x)
  }

  /** Where `x` is mined, if it is. */
  function IsMined(t: Tables, x: Txid): Option<Height> {
    if x in t.statuses && t.statuses[x].Mined? then Some(t.statuses[x].height) else None
  }

  // ---------------------------------------------------------------------------
  // Chain facts
  // ---------------------------------------------------------------------------

  function TxidsOf(b: ScannedBlock): set<Txid> {
    set i | 0 <= i < |b.txs| :: b.txs[i].txid
  }

  ghost predicate FreshOutput(t: Tables, r: Received) {
    r.out.nf.Some? ==> (r.pool, r.out.nf.value) !in t.nullifiers
  }

  /** Transactions are not mined twice, nullifiers are not created twice, and notes are not spent twice. */
  ghost predicate FreshBlock(t: Tables, b: ScannedBlock) {
    && (forall x | x in TxidsOf(b) :: IsMined(t, x).None?)
    && (forall tx | tx in b.txs :: forall r | r in tx.outputs :: FreshOutput(t, r))
    && (forall n | n in b.names :: FreshOutput(t, n.1))
    && (forall tx | tx in b.txs :: forall k | k in tx.spends && k in t.nullifiers :: t.nullifiers[k] !in t.spends)
  }

  // ---------------------------------------------------------------------------
  // A block only adds what is its own
  // ---------------------------------------------------------------------------

  ghost predicate MinedKept(t0: Tables, t: Tables, own: set<Txid>) {
    forall x | x !in own :: IsMined(t, x) == IsMined(t0, x)
  }

  ghost predicate NotesKept(t0: Tables, t: Tables, own: set<Txid>) {
    && (forall id | id in t0.notes :: id in t.notes && t.notes[id] == t0.notes[id])
    && (forall id | id in t.notes && id !in t0.notes :: id.txid in own)
  }

  ghost predicate KeysKept(t0: Tables, t: Tables, own: set<Txid>) {
    && (forall k | k in t0.nullifiers :: k in t.nullifiers && t.nullifiers[k] == t0.nullifiers[k])
    && (forall k | k in t.nullifiers && k !in t0.nullifiers :: t.nullifiers[k].txid in own)
  }

  ghost predicate SpendsKept(t0: Tables, t: Tables, own: set<Txid>) {
    && (forall id | id in t0.spends :: id in t.spends && t.spends[id] == t0.spends[id])
    && (forall id | id in t.spends && id !in t0.spends :: t.spends[id] in own)
  }

  ghost predicate IndicesKept(t0: Tables, t: Tables, own: set<Txid>) {
    && (forall x | x in t0.indices && x !in own :: x in t.indices && t.indices[x] == t0.indices[x])
    && (forall x | x in t.indices && x !in t0.indices :: x in own)
  }

  /** `t` is `t0` plus entries attributed to the transactions `own`. */
  ghost predicate AddsOnly(t0: Tables, t: Tables, own: set<Txid>) {
    && MinedKept(t0, t, own) && NotesKept(t0, t, own) && KeysKept(t0, t, own)
    && SpendsKept(t0, t, own) && IndicesKept(t0, t, own)
    && t.transactions == t0.transactions
  }

  /** The base holds nothing of `own` yet. */
  ghost predicate Apart(t0: Tables, own: set<Txid>) {
    && (forall id | id in t0.notes :: id.txid !in own)
    && (forall x | x in t0.indices :: x !in own)
  }

  lemma OutputAdds(t0: Tables, t: Tables, own: set<Txid>, txid: Txid, r: Received)
    requires AddsOnly(t0, t, own) && Apart(t0, own) && txid in own && FreshOutput(t0, r)
    ensures AddsOnly(t0, PutOutput(t, txid, r), own)
  {
  }

  lemma {:induction false} OutputsAdd(t0: Tables, t: Tables, own: set<Txid>, txid: Txid, rs: seq<Received>)
    requires AddsOnly(t0, t, own) && Apart(t0, own) && txid in own && forall r | r in rs :: FreshOutput(t0, r)
    ensures AddsOnly(t0, PutOutputs(t, txid, rs), own)
    ensures PutOutputs(t, txid, rs).statuses == t.statuses
  {
    if rs != [] {
      OutputsAdd(t0, t, own, txid, rs[..|rs| - 1]);
      assert rs[|rs| - 1] in rs;
      OutputAdds(t0, PutOutputs(t, txid, rs[..|rs| - 1]), own, txid, rs[|rs| - 1]);
    }
  }

  lemma TxAdds(t0: Tables, t: Tables, own: set<Txid>, tx: WalletTx, height: Height)
    requires AddsOnly(t0, t, own) && Apart(t0, own) && tx.txid in own && forall r | r in tx.outputs :: FreshOutput(t0, r)
    ensures AddsOnly(t0, PutTx(t, tx, height), own)
    ensures IsMined(PutTx(t, tx, height), tx.txid) == Some(height)
    ensures forall x | x != tx.txid :: IsMined(PutTx(t, tx, height), x) == IsMined(t, x)
  {
    var t1 := t.(statuses := t.statuses[tx.txid := Mined(height)], indices := t.indices[tx.txid := tx.blockIndex]);
    assert MinedKept(t0, t1, own);
    OutputsAdd(t0, t1, own, tx.txid, tx.outputs);
  }

  lemma {:induction false} TxsAdd(t0: Tables, b: ScannedBlock, own: set<Txid>, txs: seq<WalletTx>)
    requires Apart(t0, own)
    requires forall tx | tx in txs :: tx.txid in own && forall r | r in tx.outputs :: FreshOutput(t0, r)
    ensures AddsOnly(t0, PutTxs(t0, txs, b.height), own)
    ensures forall tx | tx in txs :: IsMined(PutTxs(t0, txs, b.height), tx.txid) == Some(b.height)
  {
    if txs != [] {
      var rest, tx := txs[..|txs| - 1], txs[|txs| - 1];
      TxsAdd(t0, b, own, rest);
      assert tx in txs;
      TxAdds(t0, PutTxs(t0, rest, b.height), own, tx, b.height);
      forall x | x in txs ensures IsMined(PutTxs(t0, txs, b.height), x.txid) == Some(b.height) {
        if x != tx { assert x in rest; }
      }
    }
  }

  lemma KeyAdds(t0: Tables, t: Tables, own: set<Txid>, txid: Txid, key: (Pool, Nullifier))
    requires AddsOnly(t0, t, own) && Apart(t0, own) && txid in own
    requires forall id | id in t0.spends :: id in t0.notes
    requires key in t0.nullifiers ==> t0.nullifiers[key] !in t0.spends
    ensures AddsOnly(t0, SpendKey(t, txid, key), own)
  {
    var u := SpendKey(t, txid, key);
    if key in t.nullifiers {
      var id := t.nullifiers[key];
      assert id !in t0.spends by { assert key !in t0.nullifiers ==> id.txid in own; }
      assert SpendsKept(t0, u, own);
      assert MinedKept(t0, u, own) by {
        forall x | x !in own ensures IsMined(u, x) == IsMined(t0, x) { assert IsMined(t, x) == IsMined(t0, x); }
      }
    }
  }

  /** A spend in the block touches no spend the base already had. */
  lemma {:induction false} KeysAdd(t0: Tables, t: Tables, own: set<Txid>, txid: Txid, keys: seq<(Pool, Nullifier)>)
    requires AddsOnly(t0, t, own) && Apart(t0, own) && txid in own
    requires forall id | id in t0.spends :: id in t0.notes
    requires forall k | k in keys && k in t0.nullifiers :: t0.nullifiers[k] !in t0.spends
    ensures AddsOnly(t0, SpendKeys(t, txid, keys), own)
    ensures SpendKeys(t, txid, keys).statuses == t.statuses
    ensures SpendKeys(t, txid, keys).nullifiers == t.nullifiers
  {
    if keys != [] {
      KeysAdd(t0, t, own, txid, keys[..|keys| - 1]);
      assert keys[|keys| - 1] in keys;
      KeyAdds(t0, SpendKeys(t, txid, keys[..|keys| - 1]), own, txid, keys[|keys| - 1]);
    }
  }

  lemma {:induction false} SpendsAdd(t0: Tables, t: Tables, own: set<Txid>, txs: seq<WalletTx>)
    requires AddsOnly(t0, t, own) && Apart(t0, own)
    requires forall id | id in t0.spends :: id in t0.notes
    requires forall tx | tx in txs :: tx.txid in own
    requires forall tx | tx in txs :: forall k | k in tx.spends && k in t0.nullifiers :: t0.nullifiers[k] !in t0.spends
    ensures AddsOnly(t0, SpendTxs(t, txs), own) && SpendTxs(t, txs).statuses == t.statuses
  {
    if txs != [] {
      var rest, tx := txs[..|txs| - 1], txs[|txs| - 1];
      SpendsAdd(t0, t, own, rest);
      assert tx in txs;
      KeysAdd(t0, SpendTxs(t, rest), own, tx.txid, tx.spends);
    }
  }

  lemma {:induction false} NamesAdd(t0: Tables, t: Tables, own: set<Txid>, names: seq<(Txid, Received)>)
    requires AddsOnly(t0, t, own) && Apart(t0, own)
    requires forall n | n in names :: n.0 in own && FreshOutput(t0, n.1)
    ensures AddsOnly(t0, StoreNames(t, names), own) && StoreNames(t, names).statuses == t.statuses
  {
    if names != [] {
      NamesAdd(t0, t, own, names[..|names| - 1]);
      assert names[|names| - 1] in names;
      OutputAdds(t0, StoreNames(t, names[..|names| - 1]), own, names[|names| - 1].0, names[|names| - 1].1);
    }
  }

  lemma {:induction false} BlockLeavesRest(t: Tables, b: ScannedBlock)
    ensures PutBlock(t, b).blocks == t.blocks[b.height := b.hash] && PutBlock(t, b).transactions == t.transactions
  {
    TxsLeaveRest(t, b.txs, b.height);
    SpendsLeaveRest(PutTxs(t, b.txs, b.height), b.txs);
    var applied := SpendTxs(PutTxs(t, b.txs, b.height), b.txs);
    NamesLeaveRest(applied.(blocks := applied.blocks[b.height := b.hash]), b.names);
  }

  lemma {:induction false} OutputsLeaveRest(t: Tables, txid: Txid, rs: seq<Received>)
    ensures PutOutputs(t, txid, rs).blocks == t.blocks && PutOutputs(t, txid, rs).transactions == t.transactions
  {
    if rs != [] { OutputsLeaveRest(t, txid, rs[..|rs| - 1]); }
  }

  lemma {:induction false} TxsLeaveRest(t: Tables, txs: seq<WalletTx>, height: Height)
    ensures PutTxs(t, txs, height).blocks == t.blocks && PutTxs(t, txs, height).transactions == t.transactions
  {
    if txs != [] {
      TxsLeaveRest(t, txs[..|txs| - 1], height);
      var t1, tx := PutTxs(t, txs[..|txs| - 1], height), txs[|txs| - 1];
      OutputsLeaveRest(t1.(statuses := t1.statuses[tx.txid := Mined(height)], indices := t1.indices[tx.txid := tx.blockIndex]),
                        tx.txid, tx.outputs);
    }
  }

  lemma {:induction false} KeysLeaveRest(t: Tables, txid: Txid, keys: seq<(Pool, Nullifier)>)
    ensures SpendKeys(t, txid, keys).blocks == t.blocks && SpendKeys(t, txid, keys).transactions == t.transactions
  {
    if keys != [] { KeysLeaveRest(t, txid, keys[..|keys| - 1]); }
  }

  lemma {:induction false} SpendsLeaveRest(t: Tables, txs: seq<WalletTx>)
    ensures SpendTxs(t, txs).blocks == t.blocks && SpendTxs(t, txs).transactions == t.transactions
  {
    if txs != [] {
      SpendsLeaveRest(t, txs[..|txs| - 1]);
      KeysLeaveRest(SpendTxs(t, txs[..|txs| - 1]), txs[|txs| - 1].txid, txs[|txs| - 1].spends);
    }
  }

  lemma {:induction false} NamesLeaveRest(t: Tables, names: seq<(Txid, Received)>)
    ensures StoreNames(t, names).blocks == t.blocks && StoreNames(t, names).transactions == t.transactions
  {
    if names != [] { NamesLeaveRest(t, names[..|names| - 1]); }
  }

  lemma OwnIsApart(t: Tables, b: ScannedBlock, tip: Height)
    requires Refers(t, tip) && FreshBlock(t, b)
    ensures Apart(t, TxidsOf(b))
    ensures forall tx | tx in b.txs :: tx.txid in TxidsOf(b)
    ensures NamesInBlock(b) ==> forall n | n in b.names :: n.0 in TxidsOf(b)
  {
    forall id | id in t.notes ensures id.txid !in TxidsOf(b) { assert IsMined(t, id.txid).Some?; }
    forall x | x in t.indices ensures x !in TxidsOf(b) { assert IsMined(t, x).Some?; }
    forall tx | tx in b.txs ensures tx.txid in TxidsOf(b) {
      var i :| 0 <= i < |b.txs| && b.txs[i] == tx;
    }
    if NamesInBlock(b) {
      forall n | n in b.names ensures n.0 in TxidsOf(b) {
        var i :| 0 <= i < |b.txs| && b.txs[i].txid == n.0;
      }
    }
  }

  lemma BlockAdds(t: Tables, b: ScannedBlock, tip: Height)
    requires Refers(t, tip) && NamesInBlock(b) && FreshBlock(t, b)
    ensures AddsOnly(t, PutBlock(t, b), TxidsOf(b)) && Apart(t, TxidsOf(b))
    ensures forall x | x in TxidsOf(b) :: IsMined(PutBlock(t, b), x) == Some(b.height)
  {
    var own := TxidsOf(b);
    OwnIsApart(t, b, tip);
    TxsAdd(t, b, own, b.txs);
    var put := PutTxs(t, b.txs, b.height);
    SpendsAdd(t, put, own, b.txs);
    var applied := SpendTxs(put, b.txs);
    var stamped := applied.(blocks := applied.blocks[b.height := b.hash]);
    assert AddsOnly(t, stamped, own) by {
      assert MinedKept(t, stamped, own);
    }
    NamesAdd(t, stamped, own, b.names);
    forall x | x in own ensures IsMined(PutBlock(t, b), x) == Some(b.height) {
      var i :| 0 <= i < |b.txs| && b.txs[i].txid == x;
      assert b.txs[i] in b.txs;
      assert IsMined(put, x) == IsMined(stamped, x);
    }
  }

  // ---------------------------------------------------------------------------
  // Erasing a block, and the identity at the tip
  // ---------------------------------------------------------------------------

  /** Without local sends every recorded spender is a mined transaction. */
  ghost predicate SpendersMined(t: Tables) {
    t.transactions == map[] && forall id | id in t.spends :: IsMined(t, t.spends[id]).Some?
  }

  /** `u` mined `own` at `at`, above `height`, and changed nothing else about what is mined. */
  ghost predicate MinedOnTop(t: Tables, u: Tables, own: set<Txid>, at: Height, height: Height) {
    && height < at && MinedKept(t, u, own)
    && forall x | x in own :: IsMined(u, x) == Some(at) && IsMined(t, x).None?
  }

  lemma Orphans(t: Tables, u: Tables, own: set<Txid>, at: Height, height: Height)
    requires MinedOnTop(t, u, own, at, height)
    ensures forall x :: MinedAbove(u, x, height) <==> (x in own || MinedAbove(t, x, height))
    ensures forall x :: IsMined(DropAbove(u, height), x) == IsMined(DropAbove(t, height), x)
  {
    forall x
      ensures MinedAbove(u, x, height) <==> (x in own || MinedAbove(t, x, height))
      ensures IsMined(DropAbove(u, height), x) == IsMined(DropAbove(t, height), x)
    {
      assert IsMined(u, x) == if x in own then Some(at) else IsMined(t, x);
    }
  }

  lemma NotesErased(t: Tables, u: Tables, own: set<Txid>, at: Height, height: Height)
    requires MinedOnTop(t, u, own, at, height) && NotesKept(t, u, own) && Apart(t, own)
    ensures DropAbove(u, height).notes == DropAbove(t, height).notes
  {
    Orphans(t, u, own, at, height);
  }

  lemma KeysErased(t: Tables, u: Tables, own: set<Txid>, at: Height, height: Height)
    requires MinedOnTop(t, u, own, at, height) && KeysKept(t, u, own) && Apart(t, own)
    requires forall k | k in t.nullifiers :: t.nullifiers[k] in t.notes
    ensures DropAbove(u, height).nullifiers == DropAbove(t, height).nullifiers
  {
    Orphans(t, u, own, at, height);
  }

  lemma IndicesErased(t: Tables, u: Tables, own: set<Txid>, at: Height, height: Height)
    requires MinedOnTop(t, u, own, at, height) && IndicesKept(t, u, own) && Apart(t, own)
    ensures DropAbove(u, height).indices == DropAbove(t, height).indices
  {
    Orphans(t, u, own, at, height);
  }

  ghost predicate Stands(t: Tables, height: Height, held: map<NoteId, Output>, id: NoteId) {
    id in t.spends && id in held && !MinedAbove(t, t.spends[id], height)
  }

  lemma SpendsOf(t: Tables, height: Height, held: map<NoteId, Output>)
    requires held == DropAbove(t, height).notes && t.transactions == map[]
    ensures forall id :: id in DropAbove(t, height).spends <==> Stands(t, height, held, id)
    ensures forall id | Stands(t, height, held, id) :: DropAbove(t, height).spends[id] == t.spends[id]
  {
  }

  lemma SpendErased(t: Tables, u: Tables, own: set<Txid>, at: Height, height: Height, held: map<NoteId, Output>, id: NoteId)
    requires MinedOnTop(t, u, own, at, height) && SpendsKept(t, u, own) && SpendersMined(t)
    requires forall x :: MinedAbove(u, x, height) <==> (x in own || MinedAbove(t, x, height))
    ensures Stands(u, height, held, id) <==> Stands(t, height, held, id)
    ensures Stands(t, height, held, id) ==> u.spends[id] == t.spends[id]
  {
    if id in t.spends {
      assert IsMined(t, t.spends[id]).Some? && u.spends[id] == t.spends[id];
    }
  }

  lemma SpendsErased(t: Tables, u: Tables, own: set<Txid>, at: Height, height: Height)
    requires MinedOnTop(t, u, own, at, height) && SpendsKept(t, u, own) && NotesKept(t, u, own) && Apart(t, own)
    requires SpendersMined(t) && u.transactions == map[]
    requires forall id | id in t.spends :: id in t.notes
    ensures DropAbove(u, height).spends == DropAbove(t, height).spends
  {
    Orphans(t, u, own, at, height);
    NotesErased(t, u, own, at, height);
    SpendsMatch(t, u, own, at, height, DropAbove(t, height).notes);
  }

  lemma SpendsMatch(t: Tables, u: Tables, own: set<Txid>, at: Height, height: Height, held: map<NoteId, Output>)
    requires MinedOnTop(t, u, own, at, height) && SpendsKept(t, u, own) && SpendersMined(t) && u.transactions == map[]
    requires forall x :: MinedAbove(u, x, height) <==> (x in own || MinedAbove(t, x, height))
    requires held == DropAbove(t, height).notes == DropAbove(u, height).notes
    ensures DropAbove(u, height).spends == DropAbove(t, height).spends
  {
    SpendsOf(u, height, held);
    SpendsOf(t, height, held);
    forall id
      ensures id in DropAbove(u, height).spends <==> id in DropAbove(t, height).spends
      ensures id in DropAbove(t, height).spends ==> DropAbove(u, height).spends[id] == DropAbove(t, height).spends[id]
    {
      SpendErased(t, u, own, at, height, held, id);
    }
  }

  /** A block above the rewind height leaves no trace. */
  lemma BlockErased(t: Tables, b: ScannedBlock, tip: Height, height: Height)
    requires Refers(t, tip) && SpendersMined(t) && NamesInBlock(b) && FreshBlock(t, b) && height < b.height
    ensures Same(DropAbove(PutBlock(t, b), height), DropAbove(t, height))
  {
    var u, own := PutBlock(t, b), TxidsOf(b);
    BlockAdds(t, b, tip);
    BlockLeavesRest(t, b);
    Orphans(t, u, own, b.height, height);
    NotesErased(t, u, own, b.height, height);
    KeysErased(t, u, own, b.height, height);
    IndicesErased(t, u, own, b.height, height);
    SpendsErased(t, u, own, b.height, height);
    assert DropAbove(u, height).blocks == DropAbove(t, height).blocks;
  }

  /** A rewind at or above the tip changes nothing that counts. */
  lemma DropAtTip(t: Tables, tip: Height, height: Height)
    requires Refers(t, tip) && tip <= height
    ensures Same(DropAbove(t, height), t)
  {
    assert forall x :: !MinedAbove(t, x, height);
    var d := DropAbove(t, height);
    assert d.notes == t.notes && d.nullifiers == t.nullifiers && d.indices == t.indices && d.blocks == t.blocks;
    assert d.spends == t.spends;
  }

  lemma BlockKeepsMinedSpenders(t: Tables, b: ScannedBlock, tip: Height)
    requires Refers(t, tip) && SpendersMined(t) && NamesInBlock(b) && FreshBlock(t, b)
    ensures SpendersMined(PutBlock(t, b))
  {
    var u, own := PutBlock(t, b), TxidsOf(b);
    BlockAdds(t, b, tip);
    forall id | id in u.spends ensures IsMined(u, u.spends[id]).Some? {
      if u.spends[id] !in own {
        assert id in t.spends && IsMined(u, t.spends[id]) == IsMined(t, t.spends[id]);
      }
    }
  }

  // ---------------------------------------------------------------------------
  // Chains
  // ---------------------------------------------------------------------------

  ghost predicate ValidChain(blocks: seq<ScannedBlock>) {
    blocks != [] ==>
      var rest, last := blocks[..|blocks| - 1], blocks[|blocks| - 1];
      && ValidChain(rest) && NamesInBlock(last) && FreshBlock(Build(rest), last)
      && forall b | b in rest :: b.height < last.height
  }

  function TipOf(blocks: seq<ScannedBlock>): Height {
    if blocks == [] then 0 else blocks[|blocks| - 1].height
  }

  lemma {:induction false} BuildOk(blocks: seq<ScannedBlock>)
    requires ValidChain(blocks)
    ensures Refers(Build(blocks), TipOf(blocks)) && SpendersMined(Build(blocks))
  {
    if blocks != [] {
      var rest, last := blocks[..|blocks| - 1], blocks[|blocks| - 1];
      BuildOk(rest);
      assert rest != [] ==> rest[|rest| - 1] in rest;
      PutBlockRefers(Build(rest), last, TipOf(rest));
      BlockKeepsMinedSpenders(Build(rest), last, TipOf(rest));
    }
  }

  function UpTo(blocks: seq<ScannedBlock>, height: Height): seq<ScannedBlock> {
    if blocks == [] then []
    else
      var rest, last := UpTo(blocks[..|blocks| - 1], height), blocks[|blocks| - 1];
      if last.height <= height then rest + [last] else rest
  }

  lemma {:induction false} UpToAll(blocks: seq<ScannedBlock>, height: Height)
    requires forall b | b in blocks :: b.height <= height
    ensures UpTo(blocks, height) == blocks
  {
    if blocks != [] { UpToAll(blocks[..|blocks| - 1], height); }
  }

  /** Rewinding the wallet of a chain gives the wallet of the chain cut at that height. */
  lemma {:induction false} RewindIsRebuild(blocks: seq<ScannedBlock>, height: Height)
    requires ValidChain(blocks)
    ensures Same(DropAbove(Build(blocks), height), Build(UpTo(blocks, height)))
    ensures ValidChain(UpTo(blocks, height))
  {
    if blocks == [] {
      DropAtTip(EMPTY_TABLES, 0, height);
    } else {
      var rest, last := blocks[..|blocks| - 1], blocks[|blocks| - 1];
      if last.height <= height {
        UpToAll(blocks, height);
        BuildOk(blocks);
        DropAtTip(Build(blocks), last.height, height);
      } else {
        BuildOk(rest);
        BlockErased(Build(rest), last, TipOf(rest), height);
        RewindIsRebuild(rest, height);
      }
    }
  }

  // ---------------------------------------------------------------------------
  // Any interleaving of blocks and rewinds
  // ---------------------------------------------------------------------------

  lemma {:induction false} OutputsSame(a: Tables, b: Tables, txid: Txid, rs: seq<Received>)
    requires Same(a, b)
    ensures Same(PutOutputs(a, txid, rs), PutOutputs(b, txid, rs))
  {
    if rs != [] {
      OutputsSame(a, b, txid, rs[..|rs| - 1]);
      OutputSame(PutOutputs(a, txid, rs[..|rs| - 1]), PutOutputs(b, txid, rs[..|rs| - 1]), txid, rs[|rs| - 1]);
    }
  }

  lemma OutputSame(a: Tables, b: Tables, txid: Txid, r: Received)
    requires Same(a, b)
    ensures Same(PutOutput(a, txid, r), PutOutput(b, txid, r))
  {
    var c, d := PutOutput(a, txid, r), PutOutput(b, txid, r);
    assert c.statuses == a.statuses && d.statuses == b.statuses;
    forall x ensures IsMined(c, x) == IsMined(d, x) {
      assert IsMined(a, x) == IsMined(b, x);
    }
  }

  lemma {:induction false} TxsSame(a: Tables, b: Tables, txs: seq<WalletTx>, height: Height)
    requires Same(a, b)
    ensures Same(PutTxs(a, txs, height), PutTxs(b, txs, height))
  {
    if txs != [] {
      TxsSame(a, b, txs[..|txs| - 1], height);
      TxSame(PutTxs(a, txs[..|txs| - 1], height), PutTxs(b, txs[..|txs| - 1], height), txs[|txs| - 1], height);
    }
  }

  lemma TxSame(a: Tables, b: Tables, tx: WalletTx, height: Height)
    requires Same(a, b)
    ensures Same(PutTx(a, tx, height), PutTx(b, tx, height))
  {
    var a1 := a.(statuses := a.statuses[tx.txid := Mined(height)], indices := a.indices[tx.txid := tx.blockIndex]);
    var b1 := b.(statuses := b.statuses[tx.txid := Mined(height)], indices := b.indices[tx.txid := tx.blockIndex]);
    forall x ensures IsMined(a1, x) == IsMined(b1, x) {
      assert IsMined(a, x) == IsMined(b, x);
    }
    OutputsSame(a1, b1, tx.txid, tx.outputs);
  }

  lemma {:induction false} KeysSame(a: Tables, b: Tables, txid: Txid, keys: seq<(Pool, Nullifier)>)
    requires Same(a, b)
    ensures Same(SpendKeys(a, txid, keys), SpendKeys(b, txid, keys))
  {
    if keys != [] {
      var c, d, key := SpendKeys(a, txid, keys[..|keys| - 1]), SpendKeys(b, txid, keys[..|keys| - 1]), keys[|keys| - 1];
      KeysSame(a, b, txid, keys[..|keys| - 1]);
      assert forall x :: IsMined(SpendKey(c, txid, key), x) == IsMined(c, x) && IsMined(SpendKey(d, txid, key), x) == IsMined(d, x);
    }
  }

  lemma {:induction false} SpendsSame(a: Tables, b: Tables, txs: seq<WalletTx>)
    requires Same(a, b)
    ensures Same(SpendTxs(a, txs), SpendTxs(b, txs))
  {
    if txs != [] {
      SpendsSame(a, b, txs[..|txs| - 1]);
      KeysSame(SpendTxs(a, txs[..|txs| - 1]), SpendTxs(b, txs[..|txs| - 1]), txs[|txs| - 1].txid, txs[|txs| - 1].spends);
    }
  }

  lemma {:induction false} NamesSame(a: Tables, b: Tables, names: seq<(Txid, Received)>)
    requires Same(a, b)
    ensures Same(StoreNames(a, names), StoreNames(b, names))
  {
    if names != [] {
      NamesSame(a, b, names[..|names| - 1]);
      OutputSame(StoreNames(a, names[..|names| - 1]), StoreNames(b, names[..|names| - 1]),
                 names[|names| - 1].0, names[|names| - 1].1);
    }
  }

  /** Blocks and rewinds see only what `Same` compares. */
  lemma BlockSame(a: Tables, b: Tables, block: ScannedBlock)
    requires Same(a, b)
    ensures Same(PutBlock(a, block), PutBlock(b, block))
  {
    TxsSame(a, b, block.txs, block.height);
    SpendsSame(PutTxs(a, block.txs, block.height), PutTxs(b, block.txs, block.height), block.txs);
    var c := SpendTxs(PutTxs(a, block.txs, block.height), block.txs);
    var d := SpendTxs(PutTxs(b, block.txs, block.height), block.txs);
    var c1, d1 := c.(blocks := c.blocks[block.height := block.hash]), d.(blocks := d.blocks[block.height := block.hash]);
    assert Same(c1, d1) by {
      forall x ensures IsMined(c1, x) == IsMined(d1, x) { assert IsMined(c, x) == IsMined(d, x); }
    }
    NamesSame(c1, d1, block.names);
  }

  lemma DropSame(a: Tables, b: Tables, height: Height)
    requires Same(a, b) && a.transactions == b.transactions
    ensures Same(DropAbove(a, height), DropAbove(b, height))
  {
    OrphansSame(a, b, height);
    HoldingsSame(a, b, height);
    SpendsOfSame(a, b, height);
  }

  lemma OrphansSame(a: Tables, b: Tables, height: Height)
    requires Same(a, b)
    ensures forall x :: MinedAbove(a, x, height) <==> MinedAbove(b, x, height)
    ensures forall x :: IsMined(DropAbove(a, height), x) == IsMined(DropAbove(b, height), x)
  {
    forall x
      ensures MinedAbove(a, x, height) <==> MinedAbove(b, x, height)
      ensures IsMined(DropAbove(a, height), x) == IsMined(DropAbove(b, height), x)
    {
      assert IsMined(a, x) == IsMined(b, x);
    }
  }

  lemma HoldingsSame(a: Tables, b: Tables, height: Height)
    requires a.blocks == b.blocks && a.notes == b.notes && a.nullifiers == b.nullifiers && a.indices == b.indices
    requires forall x :: MinedAbove(a, x, height) <==> MinedAbove(b, x, height)
    ensures var c, d := DropAbove(a, height), DropAbove(b, height);
      c.blocks == d.blocks && c.notes == d.notes && c.nullifiers == d.nullifiers && c.indices == d.indices
  {
  }

  lemma SpendsOfSame(a: Tables, b: Tables, height: Height)
    requires a.spends == b.spends && a.transactions == b.transactions && DropAbove(a, height).notes == DropAbove(b, height).notes
    requires forall x :: MinedAbove(a, x, height) <==> MinedAbove(b, x, height)
    ensures DropAbove(a, height).spends == DropAbove(b, height).spends
  {
  }

  lemma SameTransitive(a: Tables, b: Tables, c: Tables)
    requires Same(a, b) && Same(b, c)
    ensures Same(a, c)
  {
    forall x ensures IsMined(a, x) == IsMined(c, x) { assert IsMined(a, x) == IsMined(b, x); }
  }

  /** The blocks still on the canonical chain. */
  function Surviving(steps: seq<WalletStep>): seq<ScannedBlock> {
    if steps == [] then []
    else
      var kept := Surviving(steps[..|steps| - 1]);
      match steps[|steps| - 1]
      case Applied(b) => kept + [b]
      case Rewound(h) => UpTo(kept, h)
      case _ => kept
  }

  /** Blocks and rewinds only, each block valid on top of what survives. */
  ghost predicate Unsent(steps: seq<WalletStep>) {
    steps != [] ==>
      && Unsent(steps[..|steps| - 1])
      && (steps[|steps| - 1].Applied? || steps[|steps| - 1].Rewound?)
      && ValidChain(Surviving(steps))
  }

  lemma {:induction false} NothingSent(steps: seq<WalletStep>)
    requires Unsent(steps)
    ensures Run(steps).tables.transactions == map[]
  {
    if steps != [] {
      NothingSent(steps[..|steps| - 1]);
      if steps[|steps| - 1].Applied? {
        BlockLeavesRest(Run(steps[..|steps| - 1]).tables, steps[|steps| - 1].block);
      }
    }
  }

  /** Through any number of reorganisations, an unsent wallet is the one built from the surviving blocks. */
  lemma {:induction false} ReorganisedWalletIsRebuilt(steps: seq<WalletStep>)
    requires Unsent(steps)
    ensures Same(Run(steps).tables, Build(Surviving(steps)))
  {
    if steps != [] {
      var rest, last := steps[..|steps| - 1], steps[|steps| - 1];
      ReorganisedWalletIsRebuilt(rest);
      NothingSent(rest);
      var kept := Surviving(rest);
      match last
      case Applied(b) =>
        BlockSame(Run(rest).tables, Build(kept), b);
        assert (kept + [b])[..|kept|] == kept;
      case Rewound(h) =>
        assert ValidChain(kept) by { if rest != [] { assert Unsent(rest); } }
        BuildOk(kept);
        DropSame(Run(rest).tables, Build(kept), h);
        RewindIsRebuild(kept, h);
        SameTransitive(Run(steps).tables, DropAbove(Build(kept), h), Build(UpTo(kept, h)));
    }
  }
}
