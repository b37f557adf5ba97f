/**
 What the wallet can spend, read twice: once as a balance and once as a
 selection of notes. Both readers use the same facts and must agree.
 */
module WalletSpending {
  import opened Basics
  import opened WalletTables

  /** Notes at or below the ZIP 317 marginal fee cost more to spend than they bring. */
  const MARGINAL_FEE: nat := 5000

  datatype Confirmations = Confirmations(trusted: nat, untrusted: nat)

  /** `overridable` owners' locks may be selected over; the others exclude. */
  datatype LockFilter = Unfiltered | Override(overridable: set<Owner>, prefersLocked: bool)

  // ---------------------------------------------------------------------------
  // Facts about one note
  // ---------------------------------------------------------------------------

  /** An unmined spend stands until its retained transaction has expired; expiry zero never does. */
  predicate SpendStands(t: Tables, txid: Txid, target: Height) {
    (txid in t.statuses && !t.statuses[txid].Mined? && txid in t.transactions) ==>
      (t.transactions[txid] == 0 || t.transactions[txid] >= target)
  }

  predicate IsSpent(t: Tables, id: NoteId, target: Height) {
    id in t.spends && SpendStands(t, t.spends[id], target)
  }

  predicate IsChange(o: Output) {
    o.change || o.scope == Some(Internal)
  }

  function Required(t: Tables, txid: Txid, change: bool, policy: Confirmations): nat {
    if change || txid in t.trusted then policy.trusted else policy.untrusted
  }

  predicate IsConfirmed(t: Tables, id: NoteId, target: Height, policy: Confirmations)
    requires id in t.notes
  {
    && id.txid in t.statuses && t.statuses[id.txid].Mined?
    && var required := Required(t, id.txid, IsChange(t.notes[id]), policy);
       (if target >= required then target - required else 0) >= t.statuses[id.txid].height
  }

  predicate LockLive(t: Tables, id: NoteId, target: Height) {
    id in t.locks && t.locks[id].expiry >= target
  }

  predicate LockAdmits(t: Tables, id: NoteId, target: Height, filter: LockFilter) {
    LockLive(t, id, target) ==> filter.Unfiltered? || t.locks[id].owner in filter.overridable
  }

  predicate NonDust(t: Tables, id: NoteId)
    requires id in t.notes
  {
    t.notes[id].value > MARGINAL_FEE
  }

  predicate Eligible(t: Tables, account: AccountId, pool: Pool, target: Height, policy: Confirmations,
                     exclude: set<NoteId>, filter: LockFilter, id: NoteId)
    requires id in t.notes
  {
    && id.pool == pool && t.notes[id].account == account && id !in exclude && t.notes[id].scope.Some?
    && !IsSpent(t, id, target) && LockAdmits(t, id, target, filter) && IsConfirmed(t, id, target, policy)
  }

  function EligibleSet(t: Tables, account: AccountId, pool: Pool, target: Height, policy: Confirmations,
                       exclude: set<NoteId>, filter: LockFilter): set<NoteId>
  {
    set id | id in t.notes && Eligible(t, account, pool, target, policy, exclude, filter, id)
  }

  // ---------------------------------------------------------------------------
  // Sums over sets of notes
  // ---------------------------------------------------------------------------

  ghost function SumSet(t: Tables, s: set<NoteId>): nat
    requires s <= t.notes.Keys
  {
    if s == {} then 0
    else
      var id :| id in s;
      t.notes[id].value + SumSet(t, s - {id})
  }

  lemma {:induction false} SumSetAny(t: Tables, s: set<NoteId>, id: NoteId)
    requires s <= t.notes.Keys && id in s
    ensures SumSet(t, s) == t.notes[id].value + SumSet(t, s - {id})
    decreases |s|
  {
    var first :| first in s && SumSet(t, s) == t.notes[first].value + SumSet(t, s - {first});
    if first != id {
      SumSetAny(t, s - {first}, id);
      SumSetAny(t, s - {id}, first);
      assert s - {first} - {id} == s - {id} - {first};
    }
  }

  function SumOf(t: Tables, ids: seq<NoteId>): nat
    requires forall id | id in ids :: id in t.notes
  {
    if ids == [] then 0 else SumOf(t, ids[..|ids| - 1]) + t.notes[ids[|ids| - 1]].value
  }

  ghost predicate Distinct(ids: seq<NoteId>) {
    forall i, j | 0 <= i < j < |ids| :: ids[i] != ids[j]
  }

  /** However a set is listed, its sum is the same. */
  lemma {:induction false} SumOfListing(t: Tables, ids: seq<NoteId>)
    requires Distinct(ids) && forall id | id in ids :: id in t.notes
    ensures SumOf(t, ids) == SumSet(t, ToSet(ids))
  {
    if ids != [] {
      var n := |ids| - 1;
      SumOfListing(t, ids[..n]);
      assert ids == ids[..n] + [ids[n]];
      assert ToSet(ids) - {ids[n]} == ToSet(ids[..n]);
      SumSetAny(t, ToSet(ids), ids[n]);
    }
  }

  lemma SumGrows(t: Tables, s: set<NoteId>, todo: set<NoteId>, id: NoteId)
    requires s <= t.notes.Keys && id in todo
    ensures SumSet(t, s - (todo - {id})) == SumSet(t, s - todo) + if id in s then t.notes[id].value else 0
  {
    if id in s {
      SumSetAny(t, s - (todo - {id}), id);
      assert s - (todo - {id}) - {id} == s - todo;
    } else {
      assert s - (todo - {id}) == s - todo;
    }
  }

  // ---------------------------------------------------------------------------
  // The balance fold
  // ---------------------------------------------------------------------------

  datatype Balance = Balance(spendable: nat, locked: nat, pendingChange: nat, pendingSpendable: nat, uneconomic: nat) {
    function Total(): nat {
      spendable + locked + pendingChange + pendingSpendable + uneconomic
    }
  }

  function AddNote(t: Tables, b: Balance, id: NoteId, target: Height, policy: Confirmations): Balance
    requires id in t.notes
  {
    var o := t.notes[id];
    if !NonDust(t, id) then b.(uneconomic := b.uneconomic + o.value)
    else if !IsConfirmed(t, id, target, policy) then
      if IsChange(o) then b.(pendingChange := b.pendingChange + o.value)
      else b.(pendingSpendable := b.pendingSpendable + o.value)
    else if LockLive(t, id, target) then b.(locked := b.locked + o.value)
    else b.(spendable := b.spendable + o.value)
  }

  function UnspentSet(t: Tables, account: AccountId, pool: Pool, target: Height): set<NoteId> {
    set id | id in t.notes && Counted(t, account, pool, target, id)
  }

  function SpendableSet(t: Tables, account: AccountId, pool: Pool, target: Height, policy: Confirmations): set<NoteId> {
    set id | id in UnspentSet(t, account, pool, target) && NonDust(t, id) && IsConfirmed(t, id, target, policy)
      && !LockLive(t, id, target)
  }

  predicate Counted(t: Tables, account: AccountId, pool: Pool, target: Height, id: NoteId)
    requires id in t.notes
  {
    id.pool == pool && t.notes[id].account == account && !IsSpent(t, id, target)
  }

  /** Where the value of an unspent note is reported. */
  datatype Bucket = Free | LockedUp | WaitingChange | Waiting | Dust

  predicate FallsIn(t: Tables, id: NoteId, target: Height, policy: Confirmations, k: Bucket)
    requires id in t.notes
  {
    match k
    case Dust => !NonDust(t, id)
    case WaitingChange => NonDust(t, id) && !IsConfirmed(t, id, target, policy) && IsChange(t.notes[id])
    case Waiting => NonDust(t, id) && !IsConfirmed(t, id, target, policy) && !IsChange(t.notes[id])
    case LockedUp => NonDust(t, id) && IsConfirmed(t, id, target, policy) && LockLive(t, id, target)
    case Free => NonDust(t, id) && IsConfirmed(t, id, target, policy) && !LockLive(t, id, target)
  }

  function BucketSet(t: Tables, account: AccountId, pool: Pool, target: Height, policy: Confirmations, k: Bucket): set<NoteId> {
    set id | id in t.notes && Counted(t, account, pool, target, id) && FallsIn(t, id, target, policy, k)
  }

  function Amount(b: Balance, k: Bucket): nat {
    match k
    case Free => b.spendable
    case LockedUp => b.locked
    case WaitingChange => b.pendingChange
    case Waiting => b.pendingSpendable
    case Dust => b.uneconomic
  }

  /** The buckets share out the unspent notes: every one lies in exactly one of them. */
  lemma BucketsShareOut(t: Tables, account: AccountId, pool: Pool, target: Height, policy: Confirmations, id: NoteId)
    requires id in UnspentSet(t, account, pool, target)
    ensures exists k :: id in BucketSet(t, account, pool, target, policy, k)
    ensures forall k, l | k != l ::
      !(id in BucketSet(t, account, pool, target, policy, k) && id in BucketSet(t, account, pool, target, policy, l))
  {
    var k := if !NonDust(t, id) then Dust
             else if !IsConfirmed(t, id, target, policy) then (if IsChange(t.notes[id]) then WaitingChange else Waiting)
             else if LockLive(t, id, target) then LockedUp else Free;
    assert id in BucketSet(t, account, pool, target, policy, k);
  }

  lemma NoteLandsOnce(t: Tables, b: Balance, id: NoteId, target: Height, policy: Confirmations)
    requires id in t.notes
    ensures AddNote(t, b, id, target, policy).Total() == b.Total() + t.notes[id].value
    ensures forall k ::
      Amount(AddNote(t, b, id, target, policy), k)
        == Amount(b, k) + (if FallsIn(t, id, target, policy, k) then t.notes[id].value else 0)
  {
  }

  /** The notes outside `todo` are in the balance, each in its bucket. */
  ghost predicate Folded(t: Tables, b: Balance, account: AccountId, pool: Pool, target: Height, policy: Confirmations,
                         todo: set<NoteId>)
  {
    && b.Total() == SumSet(t, UnspentSet(t, account, pool, target) - todo)
    && forall k :: InBucket(t, b, account, pool, target, policy, todo, k)
  }

  ghost predicate InBucket(t: Tables, b: Balance, account: AccountId, pool: Pool, target: Height, policy: Confirmations,
                           todo: set<NoteId>, k: Bucket)
  {
    Amount(b, k) == SumSet(t, BucketSet(t, account, pool, target, policy, k) - todo)
  }

  lemma FoldNote(t: Tables, account: AccountId, pool: Pool, target: Height, policy: Confirmations,
                 b: Balance, todo: set<NoteId>, id: NoteId)
    requires Folded(t, b, account, pool, target, policy, todo) && id in todo && id in t.notes
    ensures Folded(t, if Counted(t, account, pool, target, id) then AddNote(t, b, id, target, policy) else b,
                   account, pool, target, policy, todo - {id})
  {
    var c := if Counted(t, account, pool, target, id) then AddNote(t, b, id, target, policy) else b;
    NoteLandsOnce(t, b, id, target, policy);
    SumGrows(t, UnspentSet(t, account, pool, target), todo, id);
    forall k ensures InBucket(t, c, account, pool, target, policy, todo - {id}, k) {
      assert InBucket(t, b, account, pool, target, policy, todo, k);
      SumGrows(t, BucketSet(t, account, pool, target, policy, k), todo, id);
    }
  }

  /**
   One account's balance in one pool: each bucket holds the value of exactly the
   unspent notes that fall in it, and the whole is the value of all of them.
   */
  method PoolBalance(t: Tables, account: AccountId, pool: Pool, target: Height, policy: Confirmations)
    returns (b: Balance)
    ensures forall k :: Amount(b, k) == SumSet(t, BucketSet(t, account, pool, target, policy, k))
    ensures b.Total() == SumSet(t, UnspentSet(t, account, pool, target))
    ensures b.spendable == SumSet(t, SpendableSet(t, account, pool, target, policy))
  {
    b := Balance(0, 0, 0, 0, 0);
    var todo := t.notes.Keys;
    NothingFolded(t, b, account, pool, target, policy);
    while todo != {}
      invariant todo <= t.notes.Keys && Folded(t, b, account, pool, target, policy, todo)
      decreases |todo|
    {
      var id :| id in todo;
      FoldNote(t, account, pool, target, policy, b, todo, id);
      b := if Counted(t, account, pool, target, id) then AddNote(t, b, id, target, policy) else b;
      todo := todo - {id};
    }
    AllFolded(t, b, account, pool, target, policy);
  }

  lemma NothingFolded(t: Tables, b: Balance, account: AccountId, pool: Pool, target: Height, policy: Confirmations)
    requires b == Balance(0, 0, 0, 0, 0)
    ensures Folded(t, b, account, pool, target, policy, t.notes.Keys)
  {
    assert UnspentSet(t, account, pool, target) - t.notes.Keys == {};
    forall k ensures InBucket(t, b, account, pool, target, policy, t.notes.Keys, k) {
      assert BucketSet(t, account, pool, target, policy, k) - t.notes.Keys == {};
    }
  }

  lemma AllFolded(t: Tables, b: Balance, account: AccountId, pool: Pool, target: Height, policy: Confirmations)
    requires Folded(t, b, account, pool, target, policy, {})
    ensures forall k :: Amount(b, k) == SumSet(t, BucketSet(t, account, pool, target, policy, k))
    ensures b.Total() == SumSet(t, UnspentSet(t, account, pool, target))
    ensures b.spendable == SumSet(t, SpendableSet(t, account, pool, target, policy))
  {
    assert UnspentSet(t, account, pool, target) - {} == UnspentSet(t, account, pool, target);
    forall k ensures Amount(b, k) == SumSet(t, BucketSet(t, account, pool, target, policy, k)) {
      assert InBucket(t, b, account, pool, target, policy, {}, k);
      assert BucketSet(t, account, pool, target, policy, k) - {} == BucketSet(t, account, pool, target, policy, k);
    }
    assert BucketSet(t, account, pool, target, policy, Free) == SpendableSet(t, account, pool, target, policy);
    assert Amount(b, Free) == b.spendable;
  }

  // ---------------------------------------------------------------------------
  // Selection order: preferred lock tier, then oldest
  // ---------------------------------------------------------------------------

  function Tier(t: Tables, id: NoteId, target: Height, filter: LockFilter): nat {
    if filter.Unfiltered? || filter.overridable == {} then 0
    else if LockLive(t, id, target) == filter.prefersLocked then 0
    else 1
  }

  predicate Before(t: Tables, a: NoteId, b: NoteId, target: Height, filter: LockFilter)
    requires a in t.notes && b in t.notes
  {
    var p, q := Tier(t, a, target, filter), Tier(t, b, target, filter);
    p < q || (p == q && t.notes[a].position <= t.notes[b].position)
  }

  /** An order the selection may draw notes in. */
  ghost predicate DrawnInOrder(t: Tables, ids: seq<NoteId>, s: set<NoteId>, target: Height, filter: LockFilter) {
    && s <= t.notes.Keys
    && ToSet(ids) == s && Distinct(ids)
    && forall i, j | 0 <= i < j < |ids| :: Before(t, ids[i], ids[j], target, filter)
  }

  /** Lists the eligible notes of one pool in drawing order. */
  method EligibleNotes(t: Tables, s: set<NoteId>, target: Height, filter: LockFilter) returns (ids: seq<NoteId>)
    requires s <= t.notes.Keys
    ensures DrawnInOrder(t, ids, s, target, filter)
  {
    ids := [];
    var todo := s;
    assert s - todo == {};
    while todo != {}
      invariant todo <= s && DrawnInOrder(t, ids, s - todo, target, filter)
      decreases |todo|
    {
      var id :| id in todo;
      var k := 0;
      while k < |ids| && Before(t, ids[k], id, target, filter)
        invariant k <= |ids|
        invariant forall i | 0 <= i < k :: Before(t, ids[i], id, target, filter)
      {
        k := k + 1;
      }
      InsertDrawn(t, ids, s - todo, id, k, target, filter);
      ids := Inserted(ids, id, k);
      assert s - todo + {id} == s - (todo - {id});
      todo := todo - {id};
    }
    assert s - {} == s;
  }

  function Inserted(ids: seq<NoteId>, id: NoteId, k: nat): seq<NoteId>
    requires k <= |ids|
  {
    ids[..k] + [id] + ids[k..]
  }

  lemma InsertedAt(ids: seq<NoteId>, id: NoteId, k: nat)
    requires k <= |ids|
    ensures forall i | 0 <= i <= |ids| ::
      Inserted(ids, id, k)[i] == if i < k then ids[i] else if i == k then id else ids[i - 1]
    ensures forall x :: x in Inserted(ids, id, k) <==> x in ids || x == id
  {
    var r := Inserted(ids, id, k);
    assert r[k] == id;
    assert forall i | 0 <= i < |ids| :: ids[i] == r[if i < k then i else i + 1];
  }

  lemma InsertDrawn(t: Tables, ids: seq<NoteId>, s: set<NoteId>, id: NoteId, k: nat, target: Height, filter: LockFilter)
    requires DrawnInOrder(t, ids, s, target, filter) && id in t.notes && id !in s && k <= |ids|
    requires forall i | 0 <= i < k :: Before(t, ids[i], id, target, filter)
    requires k < |ids| ==> !Before(t, ids[k], id, target, filter)
    ensures DrawnInOrder(t, Inserted(ids, id, k), s + {id}, target, filter)
  {
    var r := Inserted(ids, id, k);
    InsertedAt(ids, id, k);
    assert ToSet(r) == s + {id};
    forall i, j | 0 <= i < j < |r| ensures r[i] != r[j] && Before(t, r[i], r[j], target, filter) {
      if i == k {
        assert ids[k] == ids[j - 1] || Before(t, ids[k], ids[j - 1], target, filter);
      }
    }
  }

  // ---------------------------------------------------------------------------
  // Selection
  // ---------------------------------------------------------------------------

  function NonDustOf(t: Tables, ids: seq<NoteId>): (r: seq<NoteId>)
    requires forall id | id in ids :: id in t.notes
    ensures forall id :: id in r <==> id in ids && NonDust(t, id)
  {
    if ids == [] then []
    else
      var rest, last := NonDustOf(t, ids[..|ids| - 1]), ids[|ids| - 1];
      assert ids == ids[..|ids| - 1] + [last];
      if NonDust(t, last) then rest + [last] else rest
  }

  /** `picked` is the shortest prefix of `ids` reaching `goal`, or all of `ids` when none does. */
  ghost predicate ShortestPrefix(t: Tables, picked: seq<NoteId>, ids: seq<NoteId>, goal: nat) {
    && (forall id | id in ids :: id in t.notes)
    && picked <= ids
    && (SumOf(t, picked) >= goal || picked == ids)
    && (forall k | 0 <= k < |picked| :: SumOf(t, picked[..k]) < goal)
  }

  lemma {:induction false} SumOfConcat(t: Tables, a: seq<NoteId>, b: seq<NoteId>)
    requires forall id | id in a + b :: id in t.notes
    ensures (forall id | id in a :: id in t.notes) && (forall id | id in b :: id in t.notes)
    ensures SumOf(t, a + b) == SumOf(t, a) + SumOf(t, b)
  {
    assert forall id | id in a :: id in a + b;
    assert forall id | id in b :: id in a + b;
    if b == [] {
      assert a + b == a;
    } else {
      var n := |b| - 1;
      assert (a + b)[..|a| + n] == a + b[..n];
      assert forall id | id in a + b[..n] :: id in a + b;
      SumOfConcat(t, a, b[..n]);
    }
  }

  /** `picked` was drawn from `ids` on top of `total`; `after` may count one note past the goal. */
  ghost predicate PoolDrawn(t: Tables, picked: seq<NoteId>, ids: seq<NoteId>, goal: Option<nat>, total: nat, after: nat) {
    && (forall id | id in ids :: id in t.notes) && (forall id | id in picked :: id in t.notes)
    && picked <= NonDustOf(t, ids)
    && (goal.None? ==> picked == NonDustOf(t, ids))
    && (goal.Some? ==>
          && (total + SumOf(t, picked) >= goal.value || picked == NonDustOf(t, ids))
          && (forall k | 0 <= k < |picked| :: total + SumOf(t, picked[..k]) < goal.value)
          && (after == total + SumOf(t, picked) || (after >= goal.value && total + SumOf(t, picked) >= goal.value)))
  }

  /** Draws one pool's notes while the running total is short of `goal`; `All` draws every note. */
  method DrawPool(t: Tables, ids: seq<NoteId>, goal: Option<nat>, total: nat) returns (picked: seq<NoteId>, after: nat)
    requires forall id | id in ids :: id in t.notes
    ensures PoolDrawn(t, picked, ids, goal, total, after)
  {
    picked, after := [], total;
    var i := 0;
    while i < |ids|
      invariant i <= |ids|
      invariant Drawn(t, picked, ids[..i], goal, total, after)
    {
      var note := ids[i];
      var take := goal.None? || after < goal.value;
      assert note in ids && ids[..i + 1] == ids[..i] + [note];
      if t.notes[note].value > MARGINAL_FEE {
        if !take {
          EnoughDrawn(t, picked, ids, i, goal, total, after, after + t.notes[note].value);
          after := after + t.notes[note].value;
          return;
        }
        DrawOne(t, picked, ids[..i], note, goal, total, after);
        after := after + t.notes[note].value;
        picked := picked + [note];
      } else {
        SkipDust(t, picked, ids[..i], note, goal, total, after);
      }
      i := i + 1;
    }
    assert ids[..|ids|] == ids;
    AllDrawn(t, picked, ids, goal, total, after);
  }

  /** Every non-dust note of `seen` was drawn, each while the total was short. */
  ghost predicate Drawn(t: Tables, picked: seq<NoteId>, seen: seq<NoteId>, goal: Option<nat>, total: nat, after: nat) {
    && (forall id | id in seen :: id in t.notes)
    && picked == NonDustOf(t, seen)
    && after == total + SumOf(t, picked)
    && (goal.Some? ==> forall k | 0 <= k < |picked| :: total + SumOf(t, picked[..k]) < goal.value)
  }

  lemma EnoughDrawn(t: Tables, picked: seq<NoteId>, ids: seq<NoteId>, i: nat, goal: Option<nat>, total: nat, sum: nat, after: nat)
    requires i <= |ids| && Drawn(t, picked, ids[..i], goal, total, sum) && forall id | id in ids :: id in t.notes
    requires goal.Some? && sum >= goal.value && after >= sum
    ensures PoolDrawn(t, picked, ids, goal, total, after)
  {
    NonDustPrefix(t, ids, i);
  }

  lemma AllDrawn(t: Tables, picked: seq<NoteId>, ids: seq<NoteId>, goal: Option<nat>, total: nat, after: nat)
    requires Drawn(t, picked, ids, goal, total, after)
    ensures PoolDrawn(t, picked, ids, goal, total, after)
  {
  }

  lemma DrawOne(t: Tables, picked: seq<NoteId>, seen: seq<NoteId>, note: NoteId, goal: Option<nat>, total: nat, after: nat)
    requires Drawn(t, picked, seen, goal, total, after) && note in t.notes && NonDust(t, note)
    requires goal.Some? ==> after < goal.value
    ensures Drawn(t, picked + [note], seen + [note], goal, total, after + t.notes[note].value)
  {
    var more := picked + [note];
    assert (seen + [note])[..|seen|] == seen && more[..|picked|] == picked;
    assert SumOf(t, more) == SumOf(t, picked) + t.notes[note].value;
    if goal.Some? {
      forall k | 0 <= k < |more| ensures total + SumOf(t, more[..k]) < goal.value {
        assert more[..k] == if k < |picked| then picked[..k] else picked;
      }
    }
  }

  lemma SkipDust(t: Tables, picked: seq<NoteId>, seen: seq<NoteId>, note: NoteId, goal: Option<nat>, total: nat, after: nat)
    requires Drawn(t, picked, seen, goal, total, after) && note in t.notes && !NonDust(t, note)
    ensures Drawn(t, picked, seen + [note], goal, total, after)
  {
    assert (seen + [note])[..|seen|] == seen;
  }

  lemma {:induction false} NonDustPrefix(t: Tables, ids: seq<NoteId>, i: nat)
    requires i <= |ids| && forall id | id in ids :: id in t.notes
    ensures NonDustOf(t, ids[..i]) <= NonDustOf(t, ids)
    decreases |ids|
  {
    if i < |ids| {
      var n := |ids| - 1;
      assert ids[..n][..i] == ids[..i];
      NonDustPrefix(t, ids[..n], i);
    } else {
      assert ids[..i] == ids;
    }
  }

  // ---------------------------------------------------------------------------
  // The two readers agree
  // ---------------------------------------------------------------------------

  /** Every held note's spending scope was retained. */
  ghost predicate ScopesKept(t: Tables) {
    forall id | id in t.notes :: t.notes[id].scope.Some?
  }

  lemma SpendableIsEligible(t: Tables, account: AccountId, pool: Pool, target: Height, policy: Confirmations)
    requires ScopesKept(t)
    ensures SpendableSet(t, account, pool, target, policy)
      == set id | id in EligibleSet(t, account, pool, target, policy, {}, Override({}, false)) && NonDust(t, id)
  {
  }

  lemma {:induction false} NonDustDistinct(t: Tables, ids: seq<NoteId>)
    requires Distinct(ids) && forall id | id in ids :: id in t.notes
    ensures Distinct(NonDustOf(t, ids))
  {
    if ids != [] {
      var n := |ids| - 1;
      NonDustDistinct(t, ids[..n]);
      forall i | 0 <= i < |NonDustOf(t, ids[..n])| ensures NonDustOf(t, ids[..n])[i] != ids[n] {
        assert NonDustOf(t, ids[..n])[i] in ids[..n];
      }
    }
  }

  /** Every unspent note above dust with a spending key is eligible: a spend-everything proposal leaves nothing behind. */
  predicate NothingLeftOver(t: Tables, account: AccountId, pool: Pool, target: Height, policy: Confirmations,
                            exclude: set<NoteId>, filter: LockFilter)
  {
    forall id | id in t.notes && Counted(t, account, pool, target, id) && id !in exclude
        && t.notes[id].scope.Some? && NonDust(t, id) ::
      Eligible(t, account, pool, target, policy, exclude, filter, id)
  }

  lemma TwoPools(t: Tables, a: seq<NoteId>, b: seq<NoteId>, l: seq<NoteId>, r: seq<NoteId>, goal: nat, total: nat)
    requires (forall id | id in l :: id in t.notes) && (forall id | id in r :: id in t.notes)
    requires a <= l && b <= r
    requires (forall id | id in a :: id in t.notes) && (forall id | id in b :: id in t.notes)
    requires SumOf(t, a) >= goal || a == l
    requires forall k | 0 <= k < |a| :: SumOf(t, a[..k]) < goal
    requires total == SumOf(t, a) || (total >= goal && SumOf(t, a) >= goal)
    requires total + SumOf(t, b) >= goal || b == r
    requires forall k | 0 <= k < |b| :: total + SumOf(t, b[..k]) < goal
    ensures ShortestPrefix(t, a + b, l + r, goal)
  {
    SumOfConcat(t, a, b);
    assert |b| > 0 ==> total + SumOf(t, b[..0]) < goal;
    if SumOf(t, a) >= goal {
      assert a + b == a;
    }
    forall k | 0 <= k < |a + b| ensures SumOf(t, (a + b)[..k]) < goal {
      if k < |a| {
        assert (a + b)[..k] == a[..k];
      } else {
        assert (a + b)[..k] == a + b[..k - |a|];
        SumOfConcat(t, a, b[..k - |a|]);
      }
    }
  }

  datatype Target = AtLeast(goal: nat) | AllFunds(everything: bool)

  datatype Selection = AccountUnknown | UnspendableFunds | Selected(ids: seq<NoteId>)

  function NonDustAll(t: Tables, drawn: seq<seq<NoteId>>): (r: seq<NoteId>)
    requires forall i, id | 0 <= i < |drawn| && id in drawn[i] :: id in t.notes
    ensures forall id | id in r :: id in t.notes && NonDust(t, id)
  {
    if drawn == [] then [] else NonDustAll(t, drawn[..|drawn| - 1]) + NonDustOf(t, drawn[|drawn| - 1])
  }

  /** `drawn[i]` lists the notes of `sources[i]` the request admits, in the order they are drawn. */
  ghost predicate Draws(t: Tables, drawn: seq<seq<NoteId>>, account: AccountId, sources: seq<Pool>, target: Height,
                        policy: Confirmations, exclude: set<NoteId>, filter: LockFilter)
  {
    && |drawn| == |sources|
    && forall i | 0 <= i < |drawn| ::
         DrawnInOrder(t, drawn[i], EligibleSet(t, account, sources[i], target, policy, exclude, filter), target, filter)
  }

  /** What is picked from the pools drawn so far; `total` may count one note past the goal. */
  ghost predicate Picked(t: Tables, picked: seq<NoteId>, drawn: seq<seq<NoteId>>, goal: Option<nat>, total: nat) {
    && (forall i, id | 0 <= i < |drawn| && id in drawn[i] :: id in t.notes)
    && (goal.None? ==> picked == NonDustAll(t, drawn))
    && (goal.Some? ==>
          && ShortestPrefix(t, picked, NonDustAll(t, drawn), goal.value)
          && (total == SumOf(t, picked) || (total >= goal.value && SumOf(t, picked) >= goal.value)))
  }

  lemma NextPool(t: Tables, picked: seq<NoteId>, drawn: seq<seq<NoteId>>, goal: Option<nat>, total: nat,
                 ids: seq<NoteId>, more: seq<NoteId>, after: nat)
    requires Picked(t, picked, drawn, goal, total) && PoolDrawn(t, more, ids, goal, total, after)
    ensures Picked(t, picked + more, drawn + [ids], goal, after)
  {
    assert (drawn + [ids])[..|drawn|] == drawn;
    assert NonDustAll(t, drawn + [ids]) == NonDustAll(t, drawn) + NonDustOf(t, ids);
    if goal.Some? {
      TwoPools(t, picked, more, NonDustAll(t, drawn), NonDustOf(t, ids), goal.value, total);
      SumOfConcat(t, picked, more);
    }
  }

  /** Whether no source would leave a spendable note behind. */
  method EverythingSpendable(t: Tables, account: AccountId, sources: seq<Pool>, target: Height,
                             policy: Confirmations, exclude: set<NoteId>, filter: LockFilter)
    returns (all: bool)
    ensures all <==> forall pool | pool in sources :: NothingLeftOver(t, account, pool, target, policy, exclude, filter)
  {
    for i := 0 to |sources|
      invariant forall j | 0 <= j < i :: NothingLeftOver(t, account, sources[j], target, policy, exclude, filter)
    {
      if !NothingLeftOver(t, account, sources[i], target, policy, exclude, filter) {
        assert sources[i] in sources;
        return false;
      }
    }
    all := true;
  }

  /**
   Selection over the sources in the caller's order. Spending everything is
   refused exactly when some source would leave a spendable note behind; an
   at-least selection is the shortest prefix of the non-dust notes that reaches
   the goal, or all of them; a spend-all selection is all of them.
   */
  method Select(t: Tables, accounts: set<AccountId>, account: AccountId, want: Target, sources: seq<Pool>, target: Height,
                policy: Confirmations, exclude: set<NoteId>, filter: LockFilter)
    returns (r: Selection, ghost drawn: seq<seq<NoteId>>)
    ensures r.AccountUnknown? <==> account !in accounts
    ensures r.UnspendableFunds? <==>
      (account in accounts && want == AllFunds(true)
       && exists pool | pool in sources :: !NothingLeftOver(t, account, pool, target, policy, exclude, filter))
    ensures r.Selected? ==>
      && Draws(t, drawn, account, sources, target, policy, exclude, filter)
      && (want.AtLeast? ==> ShortestPrefix(t, r.ids, NonDustAll(t, drawn), want.goal))
      && (want.AllFunds? ==> r.ids == NonDustAll(t, drawn))
  {
    drawn := [];
    if account !in accounts {
      return AccountUnknown, [];
    }
    if want == AllFunds(true) {
      var nothing := EverythingSpendable(t, account, sources, target, policy, exclude, filter);
      if !nothing {
        return UnspendableFunds, [];
      }
    }
    var goal := if want.AtLeast? then Some(want.goal) else None;
    var picked, total;
    picked, total, drawn := DrawPools(t, account, goal, sources, target, policy, exclude, filter);
    r := Selected(picked);
  }

  lemma NextDraws(t: Tables, drawn: seq<seq<NoteId>>, ids: seq<NoteId>, account: AccountId, sources: seq<Pool>, i: nat,
                  target: Height, policy: Confirmations, exclude: set<NoteId>, filter: LockFilter)
    requires i < |sources| && Draws(t, drawn, account, sources[..i], target, policy, exclude, filter)
    requires DrawnInOrder(t, ids, EligibleSet(t, account, sources[i], target, policy, exclude, filter), target, filter)
    ensures Draws(t, drawn + [ids], account, sources[..i + 1], target, policy, exclude, filter)
  {
    var before, after := sources[..i], sources[..i + 1];
    forall j | 0 <= j <= i
      ensures DrawnInOrder(t, (drawn + [ids])[j], EligibleSet(t, account, after[j], target, policy, exclude, filter), target, filter)
    {
      if j < i { assert after[j] == before[j]; }
    }
  }

  /** Draws on the pools in the caller's order; `total` is the running sum. */
  method DrawPools(t: Tables, account: AccountId, goal: Option<nat>, sources: seq<Pool>, target: Height,
                   policy: Confirmations, exclude: set<NoteId>, filter: LockFilter)
    returns (picked: seq<NoteId>, total: nat, ghost drawn: seq<seq<NoteId>>)
    ensures Draws(t, drawn, account, sources, target, policy, exclude, filter)
    ensures Picked(t, picked, drawn, goal, total)
  {
    picked, total, drawn := [], 0, [];
    for i := 0 to |sources|
      invariant Draws(t, drawn, account, sources[..i], target, policy, exclude, filter)
      invariant Picked(t, picked, drawn, goal, total)
    {
      var ids := EligibleNotes(t, EligibleSet(t, account, sources[i], target, policy, exclude, filter), target, filter);
      var more, after := DrawPool(t, ids, goal, total);
      NextPool(t, picked, drawn, goal, total, ids, more, after);
      NextDraws(t, drawn, ids, account, sources, i, target, policy, exclude, filter);
      drawn := drawn + [ids];
      picked, total := picked + more, after;
    }
    assert sources[..|sources|] == sources;
  }

  /**
   Balance equals selection: at one target, with every lock excluding and every
   scope retained, the spendable balance of an account in a pool is exactly what
   a spend-all selection draws from it.
   */
  method BalanceAndSelection(t: Tables, accounts: set<AccountId>, account: AccountId, pool: Pool, target: Height,
                             policy: Confirmations)
    returns (b: Balance, r: Selection)
    requires account in accounts && ScopesKept(t)
    ensures r.Selected? && Distinct(r.ids) && ToSet(r.ids) == SpendableSet(t, account, pool, target, policy)
    ensures (forall id | id in r.ids :: id in t.notes) && b.spendable == SumOf(t, r.ids)
    ensures b.Total() == SumSet(t, UnspentSet(t, account, pool, target))
  {
    b := PoolBalance(t, account, pool, target, policy);
    var filter := Override({}, false);
    ghost var drawn;
    r, drawn := Select(t, accounts, account, AllFunds(false), [pool], target, policy, {}, filter);
    SpendAllIsSpendable(t, account, pool, target, policy, drawn);
  }

  lemma SpendAllIsSpendable(t: Tables, account: AccountId, pool: Pool, target: Height, policy: Confirmations,
                            drawn: seq<seq<NoteId>>)
    requires ScopesKept(t) && Draws(t, drawn, account, [pool], target, policy, {}, Override({}, false))
    ensures Distinct(NonDustAll(t, drawn)) && ToSet(NonDustAll(t, drawn)) == SpendableSet(t, account, pool, target, policy)
    ensures SumOf(t, NonDustAll(t, drawn)) == SumSet(t, SpendableSet(t, account, pool, target, policy))
  {
    var picked := NonDustAll(t, drawn);
    assert drawn == [drawn[0]] && [drawn[0]][..0] == [];
    assert NonDustAll(t, [drawn[0]]) == NonDustAll(t, []) + NonDustOf(t, drawn[0]);
    NonDustDistinct(t, drawn[0]);
    SpendableIsEligible(t, account, pool, target, policy);
    assert ToSet(picked) == SpendableSet(t, account, pool, target, policy);
    SumOfListing(t, picked);
  }
}
