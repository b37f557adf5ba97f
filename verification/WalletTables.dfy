/**
 The in-memory wallet: what it has applied, which notes it holds, and who spends
 them, with the rewind that must undo a branch and nothing else.
 */
module WalletTables {
  import opened Basics

  type Txid = nat
  type AccountId = nat
  type Owner = nat

  datatype Pool = Sapling | Ironwood

  datatype NoteId = NoteId(txid: Txid, pool: Pool, index: nat)

  datatype Scope = External | Internal

  /**
   A received note with what is stored beside it. `plain` stands for the note's own
   plaintext fields and `ephemeral` for its ephemeral key; the memo goes when the note goes.
   */
  datatype Output = Output(account: AccountId, value: nat, position: nat, nf: Option<Nullifier>,
                           change: bool, scope: Option<Scope>, plain: nat, ephemeral: nat, memo: Option<nat>)

  const REGISTRY_ACCOUNT: AccountId := 1

  datatype Received = Received(pool: Pool, index: nat, out: Output)

  /** `orchard` says that the scanner decrypted an ordinary Orchard output, which this wallet has no table for. */
  datatype WalletTx = WalletTx(txid: Txid, blockIndex: nat, outputs: seq<Received>, spends: seq<(Pool, Nullifier)>, orchard: bool)

  /** A scanned block; `names` are the accepted Name Notes stored after its commit. */
  datatype ScannedBlock = ScannedBlock(height: Height, hash: nat, txs: seq<WalletTx>, names: seq<(Txid, Received)>)

  datatype Status = Mined(height: Height) | NotInMainChain | TxidNotRecognized

  datatype Lock = Lock(owner: Owner, expiry: Height)

  datatype Tables = Tables(
    blocks: map<Height, nat>,
    notes: map<NoteId, Output>,
    nullifiers: map<(Pool, Nullifier), NoteId>,
    spends: map<NoteId, Txid>,
    statuses: map<Txid, Status>,
    indices: map<Txid, nat>,
    transactions: map<Txid, Height>,
    trusted: set<Txid>,
    locks: map<NoteId, Lock>)

  const EMPTY_TABLES := Tables(map[], map[], map[], map[], map[], map[], map[], {}, map[])

  // ---------------------------------------------------------------------------
  // Applying a block
  // ---------------------------------------------------------------------------

  function PutOutput(t: Tables, txid: Txid, r: Received): Tables {
    var id := NoteId(txid, r.pool, r.index);
    t.(notes := t.notes[id := r.out],
       nullifiers := if r.out.nf.Some? then t.nullifiers[(r.pool, r.out.nf.value) := id] else t.nullifiers)
  }

  function PutOutputs(t: Tables, txid: Txid, rs: seq<Received>): Tables {
    if rs == [] then t else PutOutput(PutOutputs(t, txid, rs[..|rs| - 1]), txid, rs[|rs| - 1])
  }

  function PutTx(t: Tables, tx: WalletTx, height: Height): Tables {
    PutOutputs(t.(statuses := t.statuses[tx.txid := Mined(height)], indices := t.indices[tx.txid := tx.blockIndex]),
               tx.txid, tx.outputs)
  }

  function PutTxs(t: Tables, txs: seq<WalletTx>, height: Height): Tables {
    if txs == [] then t else PutTx(PutTxs(t, txs[..|txs| - 1], height), txs[|txs| - 1], height)
  }

  function SpendKey(t: Tables, txid: Txid, key: (Pool, Nullifier)): Tables {
    if key in t.nullifiers then t.(spends := t.spends[t.nullifiers[key] := txid]) else t
  }

  function SpendKeys(t: Tables, txid: Txid, keys: seq<(Pool, Nullifier)>): Tables {
    if keys == [] then t else SpendKey(SpendKeys(t, txid, keys[..|keys| - 1]), txid, keys[|keys| - 1])
  }

  function SpendTxs(t: Tables, txs: seq<WalletTx>): Tables {
    if txs == [] then t
    else SpendKeys(SpendTxs(t, txs[..|txs| - 1]), txs[|txs| - 1].txid, txs[|txs| - 1].spends)
  }

  function StoreNames(t: Tables, names: seq<(Txid, Received)>): Tables {
    if names == [] then t else PutOutput(StoreNames(t, names[..|names| - 1]), names[|names| - 1].0, names[|names| - 1].1)
  }

  function PutScanned(t: Tables, b: ScannedBlock): Tables {
    var applied := SpendTxs(PutTxs(t, b.txs, b.height), b.txs);
    applied.(blocks := applied.blocks[b.height := b.hash])
  }

  function PutBlock(t: Tables, b: ScannedBlock): Tables {
    StoreNames(PutScanned(t, b), b.names)
  }

  function Build(blocks: seq<ScannedBlock>): Tables {
    if blocks == [] then EMPTY_TABLES else PutBlock(Build(blocks[..|blocks| - 1]), blocks[|blocks| - 1])
  }

  // ---------------------------------------------------------------------------
  // Rewinding
  // ---------------------------------------------------------------------------

  predicate MinedAbove(t: Tables, txid: Txid, height: Height) {
    txid in t.statuses && t.statuses[txid].Mined? && t.statuses[txid].height > height
  }

  function Unmine(s: Status, height: Height): Status {
    if s.Mined? && s.height > height then NotInMainChain else s
  }

  /** Drops the effects that belonged only to the abandoned branch; a locally built spend stands until it expires. */
  function DropAbove(t: Tables, height: Height): Tables {
    var notes := map id | id in t.notes && !MinedAbove(t, id.txid, height) :: t.notes[id];
    t.(blocks := map h | h in t.blocks && h <= height :: t.blocks[h],
       notes := notes,
       nullifiers := map k | k in t.nullifiers && !MinedAbove(t, t.nullifiers[k].txid, height) :: t.nullifiers[k],
       spends := map id | id in t.spends && id in notes
                   && (MinedAbove(t, t.spends[id], height) ==> t.spends[id] in t.transactions) :: t.spends[id],
       indices := map x | x in t.indices && !MinedAbove(t, x, height) :: t.indices[x],
       statuses := map x | x in t.statuses :: Unmine(t.statuses[x], height),
       locks := map id | id in t.locks && id in notes :: t.locks[id])
  }

  /** Deepest applied block at or below `max`, if any. */
  function TruncationHeight(t: Tables, max: Height): Option<Height> {
    var hs := set h | h in t.blocks && h <= max;
    if hs == {} then None else Some(Greatest(hs))
  }

  // ---------------------------------------------------------------------------
  // Sends and locks
  // ---------------------------------------------------------------------------

  /** Records a locally built transaction: its spends block re-selection, and release their locks. */
  function RecordSpends(t: Tables, txid: Txid, keys: seq<(Pool, Nullifier)>): Tables {
    if keys == [] then t
    else
      var before, key := RecordSpends(t, txid, keys[..|keys| - 1]), keys[|keys| - 1];
      if key in before.nullifiers then
        before.(spends := before.spends[before.nullifiers[key] := txid], locks := before.locks - {before.nullifiers[key]})
      else before
  }

  function RecordSent(t: Tables, txid: Txid, expiry: Height, keys: seq<(Pool, Nullifier)>): Tables {
    var t1 := t.(transactions := t.transactions[txid := expiry],
                 statuses := if txid in t.statuses then t.statuses else t.statuses[txid := NotInMainChain]);
    RecordSpends(t1, txid, keys)
  }

  predicate Lockable(t: Tables, id: NoteId, owner: Owner, tip: Height) {
    id in t.notes && !(id in t.locks && t.locks[id].owner != owner && t.locks[id].expiry > tip)
  }

  /** All or nothing. */
  function LockOutputs(t: Tables, ids: seq<NoteId>, owner: Owner, expiry: Height, tip: Height): (Tables, bool) {
    if forall id | id in ids :: Lockable(t, id, owner, tip)
    then (t.(locks := t.locks + map id | id in ids :: Lock(owner, expiry)), true)
    else (t, false)
  }

  // ---------------------------------------------------------------------------
  // What every wallet keeps
  // ---------------------------------------------------------------------------

  /** Nullifiers, spends and locks name held notes; every held note is mined; nothing is mined above the tip. */
  ghost predicate Refers(t: Tables, tip: Height) {
    && (forall k | k in t.nullifiers :: t.nullifiers[k] in t.notes)
    && (forall id | id in t.spends :: id in t.notes && t.spends[id] in t.statuses)
    && (forall id | id in t.locks :: id in t.notes)
    && (forall id | id in t.notes :: id.txid in t.statuses && t.statuses[id.txid].Mined?)
    && (forall x | x in t.statuses && t.statuses[x].Mined? :: t.statuses[x].height <= tip)
    && (forall x | x in t.indices :: x in t.statuses && t.statuses[x].Mined?)
    && (forall h | h in t.blocks :: h <= tip)
  }

  lemma DropKeepsRefers(t: Tables, tip: Height, height: Height)
    requires Refers(t, tip)
    ensures Refers(DropAbove(t, height), height)
  {
  }

  lemma {:induction false} PutOutputsRefers(t: Tables, txid: Txid, rs: seq<Received>, tip: Height)
    requires Refers(t, tip) && txid in t.statuses && t.statuses[txid].Mined?
    ensures Refers(PutOutputs(t, txid, rs), tip) && PutOutputs(t, txid, rs).statuses == t.statuses
  {
    if rs != [] { PutOutputsRefers(t, txid, rs[..|rs| - 1], tip); }
  }

  lemma {:induction false} PutTxsRefers(t: Tables, txs: seq<WalletTx>, height: Height)
    requires Refers(t, height)
    ensures Refers(PutTxs(t, txs, height), height)
    ensures forall tx | tx in txs :: PutTxs(t, txs, height).statuses[tx.txid := Mined(height)] == PutTxs(t, txs, height).statuses
    ensures t.statuses.Keys <= PutTxs(t, txs, height).statuses.Keys
  {
    if txs != [] {
      var rest, tx := txs[..|txs| - 1], txs[|txs| - 1];
      PutTxsRefers(t, rest, height);
      var t1 := PutTxs(t, rest, height);
      var t2 := t1.(statuses := t1.statuses[tx.txid := Mined(height)], indices := t1.indices[tx.txid := tx.blockIndex]);
      PutOutputsRefers(t2, tx.txid, tx.outputs, height);
      forall x | x in txs
        ensures x.txid in PutTxs(t, txs, height).statuses && PutTxs(t, txs, height).statuses[x.txid] == Mined(height)
      {
        if x != tx { assert x in rest; assert t1.statuses[x.txid := Mined(height)] == t1.statuses; }
      }
    }
  }

  lemma {:induction false} SpendKeysRefers(t: Tables, txid: Txid, keys: seq<(Pool, Nullifier)>, tip: Height)
    requires Refers(t, tip) && txid in t.statuses
    ensures Refers(SpendKeys(t, txid, keys), tip) && SpendKeys(t, txid, keys).statuses == t.statuses
  {
    if keys != [] { SpendKeysRefers(t, txid, keys[..|keys| - 1], tip); }
  }

  lemma {:induction false} SpendTxsRefers(t: Tables, txs: seq<WalletTx>, tip: Height)
    requires Refers(t, tip) && forall tx | tx in txs :: tx.txid in t.statuses
    ensures Refers(SpendTxs(t, txs), tip) && SpendTxs(t, txs).statuses == t.statuses
  {
    if txs != [] {
      var rest, tx := txs[..|txs| - 1], txs[|txs| - 1];
      SpendTxsRefers(t, rest, tip);
      assert tx in txs;
      SpendKeysRefers(SpendTxs(t, rest), tx.txid, tx.spends, tip);
    }
  }

  lemma {:induction false} StoreNamesRefers(t: Tables, names: seq<(Txid, Received)>, tip: Height)
    requires Refers(t, tip) && forall n | n in names :: n.0 in t.statuses && t.statuses[n.0].Mined?
    ensures Refers(StoreNames(t, names), tip) && StoreNames(t, names).statuses == t.statuses
  {
    if names != [] {
      StoreNamesRefers(t, names[..|names| - 1], tip);
      assert names[|names| - 1] in names;
    }
  }

  /** A Name Note belongs to a transaction of its own block. */
  ghost predicate NamesInBlock(b: ScannedBlock) {
    forall n | n in b.names :: exists i | 0 <= i < |b.txs| :: b.txs[i].txid == n.0
  }

  lemma PutBlockRefers(t: Tables, b: ScannedBlock, tip: Height)
    requires Refers(t, tip) && tip <= b.height && NamesInBlock(b)
    ensures Refers(PutBlock(t, b), b.height)
  {
    var put := PutTxs(t, b.txs, b.height);
    PutTxsRefers(t, b.txs, b.height);
    assert forall tx | tx in b.txs :: put.statuses[tx.txid := Mined(b.height)] == put.statuses && tx.txid in put.statuses;
    SpendTxsRefers(put, b.txs, b.height);
    var applied := SpendTxs(put, b.txs);
    forall n | n in b.names ensures n.0 in applied.statuses && applied.statuses[n.0].Mined? {
      var i :| 0 <= i < |b.txs| && b.txs[i].txid == n.0;
      assert b.txs[i] in b.txs;
    }
    StoreNamesRefers(applied.(blocks := applied.blocks[b.height := b.hash]), b.names, b.height);
  }

  lemma {:induction false} RecordSpendsRefers(t: Tables, txid: Txid, keys: seq<(Pool, Nullifier)>, tip: Height)
    requires Refers(t, tip) && txid in t.statuses
    ensures Refers(RecordSpends(t, txid, keys), tip) && RecordSpends(t, txid, keys).statuses == t.statuses
  {
    if keys != [] { RecordSpendsRefers(t, txid, keys[..|keys| - 1], tip); }
  }

  // ---------------------------------------------------------------------------
  // Whole runs, local sends included
  // ---------------------------------------------------------------------------

  datatype WalletStep =
    | Applied(block: ScannedBlock)
    | SentLocally(txid: Txid, expiry: Height, keys: seq<(Pool, Nullifier)>)
    | Locked(ids: seq<NoteId>, owner: Owner, until: Height)
    | Rewound(height: Height)

  datatype Wallet = Wallet(tables: Tables, tip: Height)

  function Take(w: Wallet, s: WalletStep): Wallet {
    match s
    case Applied(b) => Wallet(PutBlock(w.tables, b), b.height)
    case SentLocally(txid, expiry, keys) => w.(tables := RecordSent(w.tables, txid, expiry, keys))
    case Locked(ids, owner, until) => w.(tables := LockOutputs(w.tables, ids, owner, until, w.tip).0)
    case Rewound(height) => Wallet(DropAbove(w.tables, height), height)
  }

  function Run(steps: seq<WalletStep>): Wallet {
    if steps == [] then Wallet(EMPTY_TABLES, 0) else Take(Run(steps[..|steps| - 1]), steps[|steps| - 1])
  }

  ghost predicate LegalStep(w: Wallet, s: WalletStep) {
    s.Applied? ==> w.tip <= s.block.height && NamesInBlock(s.block)
  }

  ghost predicate Legal(steps: seq<WalletStep>) {
    steps != [] ==> Legal(steps[..|steps| - 1]) && LegalStep(Run(steps[..|steps| - 1]), steps[|steps| - 1])
  }

  /** Through any blocks, sends, locks and rewinds, references stay inside the held notes. */
  lemma {:induction false} EveryWalletRefers(steps: seq<WalletStep>)
    requires Legal(steps)
    ensures Refers(Run(steps).tables, Run(steps).tip)
  {
    if steps != [] {
      var rest, last := steps[..|steps| - 1], steps[|steps| - 1];
      EveryWalletRefers(rest);
      var w := Run(rest);
      match last
      case Applied(b) => PutBlockRefers(w.tables, b, w.tip);
      case SentLocally(txid, expiry, keys) =>
        var t1 := w.tables.(transactions := w.tables.transactions[txid := expiry],
                            statuses := if txid in w.tables.statuses then w.tables.statuses
                                        else w.tables.statuses[txid := NotInMainChain]);
        RecordSpendsRefers(t1, txid, keys, w.tip);
      case Locked(_, _, _) =>
      case Rewound(height) => DropKeepsRefers(w.tables, w.tip, height);
    }
  }

  /**
   After a rewind to `height`, in any wallet whatever it sent or locked: no block and
   no transaction is mined above it, and a spend of a held note survives exactly when
   its transaction still stands or was built here.
   */
  lemma RewindForgetsTheBranch(steps: seq<WalletStep>, height: Height, id: NoteId)
    requires Legal(steps)
    ensures var before, after := Run(steps).tables, Take(Run(steps), Rewound(height)).tables;
      && Refers(after, height)
      && (id in after.notes <==> id in before.notes && !MinedAbove(before, id.txid, height))
      && (id in after.notes ==>
            (id in after.spends <==>
              (id in before.spends &&
                (!MinedAbove(before, before.spends[id], height) || before.spends[id] in before.transactions))))
  {
    EveryWalletRefers(steps);
    DropKeepsRefers(Run(steps).tables, Run(steps).tip, height);
  }
}
