/**
 The registry laws as what a reader of the chain sees: for every transaction, the
 verdict and the records, chains and anchors it leaves, each written out.
 */
module RegistryLaws {
  import opened Basics
  import opened NameNotes
  import opened AnchorPools
  import opened Registries

  // ---------------------------------------------------------------------------
  // What may change
  // ---------------------------------------------------------------------------

  /** Name `n` has the same live record, or none, and the same chain. */
  ghost predicate SameName(before: Reg, after: Reg, n: Name) {
    && (n in after.records <==> n in before.records) && (n in before.records ==> after.records[n] == before.records[n])
    && (n in after.history <==> n in before.history) && (n in before.history ==> after.history[n] == before.history[n])
  }

  /** The chain of `n` grew by `rec`, which is its live record unless it is a release. */
  ghost predicate Recorded(before: Reg, after: Reg, n: Name, rec: NameRecord) {
    && n in after.history && after.history[n] == (if n in before.history then before.history[n] else []) + [rec]
    && (n in after.records <==> rec.action != Release)
    && (n in after.records ==> after.records[n] == rec)
  }

  ghost predicate NameSpent(r: Reg, nfs: seq<Nullifier>, n: Name) {
    n in r.records && r.records[n].nullifier in nfs
  }

  /** The live anchors become `live`, checkpointed at `height` when any was spent. */
  ghost predicate AnchorsBecome(before: Pool, after: Pool, nfs: seq<Nullifier>, live: set<Nullifier>, height: Height) {
    if exists nf :: nf in nfs && nf in before.live
    then after == Pool(live, before.checkpoints[height := live], before.established)
    else after == before
  }

  /** Every spent name is released as it stood, every spent anchor leaves, and nothing else changes. */
  ghost predicate Followed(r: Reg, nfs: seq<Nullifier>, height: Height, after: Reg) {
    && AnchorsBecome(r.pool, after.pool, nfs, r.pool.live - ToSet(nfs), height)
    && forall n ::
         if NameSpent(r, nfs, n) then Recorded(r, after, n, r.records[n].(action := Release, confirmedHeight := height))
         else SameName(r, after, n)
  }

  lemma OneRecord(r: Reg, rec: NameRecord)
    ensures SetRecord(r, rec).pool == r.pool
    ensures Recorded(r, SetRecord(r, rec), rec.name, rec)
    ensures forall n | n != rec.name :: SameName(r, SetRecord(r, rec), n)
  {
  }

  lemma {:induction false} ReleaseAllNames(r: Reg, names: seq<Name>, height: Height)
    requires forall n | n in r.records :: r.records[n].name == n
    requires forall i, j | 0 <= i < j < |names| :: names[i] != names[j]
    ensures var after := ReleaseAll(r, names, height);
      forall n ::
        if n in names && n in r.records
        then Recorded(r, after, n, r.records[n].(action := Release, confirmedHeight := height))
        else SameName(r, after, n)
  {
    if names != [] {
      var k := |names| - 1;
      var name, before := names[k], ReleaseAll(r, names[..k], height);
      ReleaseAllNames(r, names[..k], height);
      assert forall n :: n in names <==> n in names[..k] || n == name;
      assert SameName(r, before, name);
      if name in r.records { OneRecord(before, ReleasedCopy(r.records[name], height)); }
      var after := ReleaseAll(r, names, height);
      forall n
        ensures if n in names && n in r.records
                then Recorded(r, after, n, r.records[n].(action := Release, confirmedHeight := height))
                else SameName(r, after, n)
      {
        assert n != name ==> SameName(before, after, n);
      }
    }
  }

  lemma OwnNames(r: Reg, tip: Height)
    requires RegInv(r, tip)
    ensures forall n | n in r.records :: r.records[n].name == n
  {
    forall n | n in r.records ensures r.records[n].name == n {
      assert ChainOk(r.history[n], n, tip);
    }
  }

  lemma FollowLaw(r: Reg, nfs: seq<Nullifier>, height: Height)
    requires RegInv(r, height)
    ensures Followed(r, nfs, height, FollowSpends(r, nfs, height))
  {
    var r1 := r.(pool := RetireSpent(r.pool, nfs, None, height));
    OwnNames(r, height);
    ReleaseAllNames(r1, Ascending(NamesSpentBy(r1, nfs)), height);
    MarkReleasedPool(r1, Ascending(NamesSpentBy(r1, nfs)), height);
    RetiredAnchors(r.pool, nfs, height);
    var after := FollowSpends(r, nfs, height);
    forall n
      ensures if NameSpent(r, nfs, n) then Recorded(r, after, n, r.records[n].(action := Release, confirmedHeight := height))
              else SameName(r, after, n)
    {
      assert n in NamesSpentBy(r1, nfs) <==> NameSpent(r, nfs, n);
    }
  }

  lemma {:induction false} MarkReleasedPool(r: Reg, names: seq<Name>, height: Height)
    ensures ReleaseAll(r, names, height).pool == r.pool
  {
    if names != [] { MarkReleasedPool(r, names[..|names| - 1], height); }
  }

  lemma RetiredAnchors(p: Pool, nfs: seq<Nullifier>, height: Height)
    ensures AnchorsBecome(p, RetireSpent(p, nfs, None, height), nfs, p.live - ToSet(nfs), height)
  {
    assert p.live - Retired(p, nfs) == p.live - ToSet(nfs);
    if nf :| nf in nfs && nf in p.live { assert nf in Retired(p, nfs); }
  }

  /** What follows the spends is one registry. */
  lemma FollowedIsOne(r: Reg, nfs: seq<Nullifier>, height: Height, a: Reg, b: Reg)
    requires Followed(r, nfs, height, a) && Followed(r, nfs, height, b)
    ensures a == b
  {
    SameEverywhere(a, b);
  }

  lemma SameEverywhere(a: Reg, b: Reg)
    requires a.pool == b.pool
    requires forall n :: SameName(a, b, n)
    ensures a == b
  {
    forall n
      ensures (n in a.records <==> n in b.records) && (n in a.records ==> a.records[n] == b.records[n])
      ensures (n in a.history <==> n in b.history) && (n in a.history ==> a.history[n] == b.history[n])
    {
      assert SameName(a, b, n);
    }
    assert a.records == b.records && a.history == b.history;
  }

  // ---------------------------------------------------------------------------
  // Updates, releases and sales
  // ---------------------------------------------------------------------------

  /** The transaction spends this name's live note, no other name's and no anchor. */
  ghost predicate SpendsOnly(r: Reg, name: Name, nfs: seq<Nullifier>) {
    && NameSpent(r, nfs, name)
    && (forall n | NameSpent(r, nfs, n) :: n == name)
    && (forall nf | nf in nfs :: nf !in r.pool.live)
  }

  /**
   A note whose transaction spends exactly its name's live note is recorded when it
   names that note's commitment; otherwise the name is released. In every other case
   the note is refused and the spends are followed.
   */
  ghost predicate SuccessorRuled(net: Network, r: Reg, note: NameNote, nullifier: Nullifier, nfs: seq<Nullifier>,
                                 height: Height, mtp: Timestamp, after: Reg, accepted: bool)
    requires !note.ClaimNote?
  {
    if SpendsOnly(r, note.name, nfs) then
      var live := r.records[note.name];
      && (accepted <==> note.prev == live.commitment)
      && after.pool == r.pool
      && (forall n | n != note.name :: SameName(r, after, n))
      && (accepted ==>
            Recorded(r, after, note.name,
              NameRecord(note.name,
                         if note.UpdateNote? then Update else if note.SaleNote? then Sale else Release,
                         note.ua,
                         if note.ReleaseNote? then Never else note.expiresAt,
                         net.commit(note), height, mtp + 31_557_600, nullifier)))
      && (!accepted ==>
            Recorded(r, after, note.name,
              NameRecord(note.name, Release, live.ua, Never,
                         net.commit(ReleaseNote(note.name, live.ua, live.commitment)), height, mtp + 31_557_600, nullifier)))
    else
      !accepted && Followed(r, nfs, height, after)
  }

  lemma PredecessorIff(r: Reg, name: Name, nfs: seq<Nullifier>)
    ensures PredecessorSpent(r, name, nfs).Some? <==> SpendsOnly(r, name, nfs)
    ensures SpendsOnly(r, name, nfs) ==> PredecessorSpent(r, name, nfs).value == r.records[name]
  {
    var spent := NamesSpentBy(r, nfs);
    assert forall n :: n in spent <==> NameSpent(r, nfs, n);
    assert forall nf :: nf in Retired(r.pool, nfs) <==> nf in nfs && nf in r.pool.live;
    if SpendsOnly(r, name, nfs) {
      assert spent == {name} && Retired(r.pool, nfs) == {};
    }
  }

  /** Over every lawful registry, the successor law makes of a note exactly what is written out, and nothing else. */
  lemma SuccessorLaw(net: Network, r: Reg, note: NameNote, nullifier: Nullifier, nfs: seq<Nullifier>,
                     height: Height, mtp: Timestamp, after: Reg, accepted: bool)
    requires RegInv(r, height) && !note.ClaimNote?
    ensures SuccessorRuled(net, r, note, nullifier, nfs, height, mtp, after, accepted)
      <==> (after, accepted) == AcceptSuccessor(net, r, note, nullifier, nfs, height, mtp)
  {
    var (ruled, verdict) := AcceptSuccessor(net, r, note, nullifier, nfs, height, mtp);
    SuccessorIsRuled(net, r, note, nullifier, nfs, height, mtp);
    if SuccessorRuled(net, r, note, nullifier, nfs, height, mtp, after, accepted) {
      if SpendsOnly(r, note.name, nfs) {
        forall n ensures SameName(ruled, after, n) {
          if n != note.name { assert SameName(r, ruled, n) && SameName(r, after, n); }
        }
        SameEverywhere(ruled, after);
      } else {
        FollowedIsOne(r, nfs, height, ruled, after);
      }
    }
  }

  lemma SuccessorIsRuled(net: Network, r: Reg, note: NameNote, nullifier: Nullifier, nfs: seq<Nullifier>,
                         height: Height, mtp: Timestamp)
    requires RegInv(r, height) && !note.ClaimNote?
    ensures var (after, accepted) := AcceptSuccessor(net, r, note, nullifier, nfs, height, mtp);
      SuccessorRuled(net, r, note, nullifier, nfs, height, mtp, after, accepted)
  {
    PredecessorIff(r, note.name, nfs);
    if SpendsOnly(r, note.name, nfs) {
      var live := r.records[note.name];
      if note.prev == live.commitment {
        OneRecord(r, Create(net, note, nullifier, height, mtp));
      } else {
        OneRecord(r, Create(net, ReleaseNote(note.name, live.ua, live.commitment), nullifier, height, mtp));
      }
    } else {
      FollowLaw(r, nfs, height);
    }
  }

  // ---------------------------------------------------------------------------
  // Claims
  // ---------------------------------------------------------------------------

  /** The anchor at position `i` is the only live anchor among these nullifiers, repetition counted. */
  ghost predicate OnlyAnchor(p: Pool, nfs: seq<Nullifier>, i: nat) {
    && i < |nfs| && nfs[i] in p.live
    && forall j | 0 <= j < |nfs| && j != i :: nfs[j] !in p.live
  }

  /** Free, and not released inside the expiry window of this transaction. */
  ghost predicate FreeFor(net: Network, r: Reg, name: Name, expiry: Height) {
    && name !in r.records
    && (name in r.history && r.history[name] != [] ==>
          var last := r.history[name][|r.history[name]| - 1];
          last.action == Release ==> expiry > last.confirmedHeight + net.expiryDelta(last.confirmedHeight))
  }

  /**
   A claim is accepted iff it spends exactly one live anchor and no name, brings a
   successor anchor and finds its name free; then it swaps the anchor for the successor
   and records the name. Otherwise the spends are followed and no anchor is seated.
   */
  ghost predicate ClaimRuled(net: Network, r: Reg, note: NameNote, nullifier: Nullifier, successor: Option<Nullifier>,
                             nfs: seq<Nullifier>, height: Height, mtp: Timestamp, expiry: Height, after: Reg, accepted: bool)
    requires note.ClaimNote?
  {
    && (accepted <==>
          && (exists i: nat :: OnlyAnchor(r.pool, nfs, i)) && (forall n :: !NameSpent(r, nfs, n))
          && FreeFor(net, r, note.name, expiry) && successor.Some?)
    && (accepted ==>
          && (forall i: nat | OnlyAnchor(r.pool, nfs, i) ::
                AnchorsBecome(r.pool, after.pool, nfs, r.pool.live - {nfs[i]} + {successor.value}, height))
          && (forall n | n != note.name :: SameName(r, after, n))
          && Recorded(r, after, note.name,
               NameRecord(note.name, Claim, note.ua, note.expiresAt, net.commit(note), height, mtp + 31_557_600, nullifier)))
    && (!accepted ==> Followed(r, nfs, height, after))
  }

  lemma {:induction false} NoAnchorCounted(p: Pool, nfs: seq<Nullifier>)
    ensures CountLive(p, nfs) == 0 <==> forall j | 0 <= j < |nfs| :: nfs[j] !in p.live
  {
    if nfs != [] { NoAnchorCounted(p, nfs[..|nfs| - 1]); }
  }

  lemma {:induction false} OneAnchorCounted(p: Pool, nfs: seq<Nullifier>)
    ensures CountLive(p, nfs) == 1 <==> exists i: nat :: OnlyAnchor(p, nfs, i)
  {
    if nfs != [] {
      var n := |nfs| - 1;
      var rest := nfs[..n];
      OneAnchorCounted(p, rest);
      NoAnchorCounted(p, rest);
      if nfs[n] in p.live {
        if CountLive(p, rest) == 0 {
          assert forall j | 0 <= j < n :: nfs[j] == rest[j];
          assert OnlyAnchor(p, nfs, n);
        }
        if i: nat :| OnlyAnchor(p, nfs, i) {
          assert i == n;
          assert forall j | 0 <= j < n :: rest[j] == nfs[j];
        }
      } else {
        if i: nat :| OnlyAnchor(p, rest, i) { assert OnlyAnchor(p, nfs, i); }
        if i: nat :| OnlyAnchor(p, nfs, i) { assert OnlyAnchor(p, rest, i); }
      }
    }
  }

  lemma AdmittedIff(net: Network, r: Reg, name: Name, nfs: seq<Nullifier>, expiry: Height)
    ensures ClaimAdmitted(net, r, name, nfs, expiry) <==>
      && (exists i: nat :: OnlyAnchor(r.pool, nfs, i)) && (forall n :: !NameSpent(r, nfs, n)) && FreeFor(net, r, name, expiry)
  {
    OneAnchorCounted(r.pool, nfs);
    assert forall n :: n in NamesSpentBy(r, nfs) <==> NameSpent(r, nfs, n);
    if forall n :: !NameSpent(r, nfs, n) { assert NamesSpentBy(r, nfs) == {}; }
  }

  lemma SwappedAnchor(p: Pool, nfs: seq<Nullifier>, successor: Nullifier, height: Height, i: nat)
    requires OnlyAnchor(p, nfs, i)
    ensures AnchorsBecome(p, RetireSpent(p, nfs, Some(successor), height), nfs, p.live - {nfs[i]} + {successor}, height)
  {
    assert nfs[i] in nfs;
    assert Retired(p, nfs) == {nfs[i]};
  }

  lemma ClaimIsRuled(net: Network, r: Reg, note: NameNote, nullifier: Nullifier, successor: Option<Nullifier>,
                     nfs: seq<Nullifier>, height: Height, mtp: Timestamp, expiry: Height)
    requires RegInv(r, height) && note.ClaimNote?
    ensures var (after, accepted) := AcceptClaim(net, r, note, nullifier, successor, nfs, height, mtp, expiry);
      ClaimRuled(net, r, note, nullifier, successor, nfs, height, mtp, expiry, after, accepted)
  {
    AdmittedIff(net, r, note.name, nfs, expiry);
    var (after, accepted) := AcceptClaim(net, r, note, nullifier, successor, nfs, height, mtp, expiry);
    if accepted {
      forall i: nat | OnlyAnchor(r.pool, nfs, i)
        ensures AnchorsBecome(r.pool, after.pool, nfs, r.pool.live - {nfs[i]} + {successor.value}, height)
      {
        SwappedAnchor(r.pool, nfs, successor.value, height, i);
      }
    } else {
      assert after == FollowSpends(r, nfs, height);
      FollowLaw(r, nfs, height);
    }
  }

  /** Over every lawful registry, the claim law makes of a claim exactly what is written out, and nothing else. */
  lemma ClaimLaw(net: Network, r: Reg, note: NameNote, nullifier: Nullifier, successor: Option<Nullifier>,
                 nfs: seq<Nullifier>, height: Height, mtp: Timestamp, expiry: Height, after: Reg, accepted: bool)
    requires RegInv(r, height) && note.ClaimNote?
    ensures ClaimRuled(net, r, note, nullifier, successor, nfs, height, mtp, expiry, after, accepted)
      <==> (after, accepted) == AcceptClaim(net, r, note, nullifier, successor, nfs, height, mtp, expiry)
  {
    var (ruled, verdict) := AcceptClaim(net, r, note, nullifier, successor, nfs, height, mtp, expiry);
    ClaimIsRuled(net, r, note, nullifier, successor, nfs, height, mtp, expiry);
    if ClaimRuled(net, r, note, nullifier, successor, nfs, height, mtp, expiry, after, accepted) {
      if accepted {
        var i: nat :| OnlyAnchor(r.pool, nfs, i);
        forall n ensures SameName(ruled, after, n) {
          if n != note.name { assert SameName(r, ruled, n) && SameName(r, after, n); }
        }
        SameEverywhere(ruled, after);
      } else {
        FollowedIsOne(r, nfs, height, ruled, after);
      }
    }
  }
}
